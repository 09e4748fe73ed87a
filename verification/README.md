# Verified model of the Tyr Fintech backend

The backend moves money in five PostgreSQL transactions that share rows: a wallet transfer, a
hosted-checkout payment, a card payment, a charge settlement and a wallet deletion.  They rely on row
locks, lock order, conditional updates, CHECK constraints and rollback.  This project models those
transactions, the services above them, and the self-contained protocols beside them, and proves what they
promise.  `dafny verify dfyconfig.toml` checks everything.

## How it is built

* **Tables** (`Tables.dfy`) is the schema: one map from row keys to rows, with the column ranges and CHECK
  constraints of the migrations as `RowOk`.
* **Specifications** (`Specs.dfy`) say, without statements, locks or overlays, what each operation does to the
  committed tables: the new tables, or an error and no change.
* **Repository classes** (`Repositories.dfy`, `Charging.dfy`, `Transfers.dfy`) are the Go methods as they are
  written, step by step over a database object.  Each is proved to return exactly its specified verdict.
* **Outcomes** (`Outcomes.dfy`, `Deletions.dfy`) say the same from the caller's side, written out on the rows and
  without the specifications' own functions: when each operation commits, which error each refusal is, and
  what the rows and balances are afterwards.
* **Programs and interleaving** (`Programs.dfy`, `Interleaving.dfy`) are the same operations one SQL statement at
  a time.  A statement waits for its row lock, reads its own writes over the committed tables, checks the
  constraints, and writes to a private overlay.  Commit publishes the overlay; rollback, which is possible
  at any point, discards it.  Any number of transactions run at once.
* **Laws** (`Sums.dfy`, `Laws.dfy`) are totals over all rows of the tables that no committed operation changes.
  **Records** (`Records.dfy`) are relations between rows that every committed operation keeps.
* **Guarantees** (`Guarantees.dfy`) puts these together: what holds in every committed state that any
  interleaving can reach from freshly seeded tables.  **Deadlock** (`Deadlock.dfy`) is about the waiting,
  **Reachability** (`Reachability.dfy`) shows that every history is some interleaving's, and
  **WrappedFees** (`WrappedFees.dfy`) reaches the states in which conservation fails.
* **Overlapping charge calls** (`OverlappingCharges.dfy`) are a second step machine, one step for each of the lookup,
  the settlement and the save of a call.
* `Statements.dfy`, `Webhooks.dfy`, `WebhookCrashes.dfy`, `RateLimiter.dfy`, `Notifications.dfy`, `HubRuns.dfy`,
  `Luhn.dfy` and `Money.dfy` are the statement totals, the webhook retry protocol without and with crashes, the Redis
  limiter, the notification hub and runs of it, the card check digit, and int64 fee arithmetic.

"Freshly seeded" (`Guarantees.Fresh`) means: both system accounts exist at balance zero, every merchant's
settlement wallet exists, wallets may hold opening balances, and nothing has been paid yet.  The seeding is
an assumption because the UPDATEs of the system accounts do not look at the number of rows they affect.

## What the code does that its documentation does not say

* **Balanced bookkeeping has a limit.**  `amount * bps` is int64 arithmetic and `amount` has no upper
  bound.  When the product wraps below zero the fee is negative, no fee leg is written, and the payee is
  credited more than the gross amount, unless the net wraps in turn.  The project proves that the payment conserves money, and the
  ledger's debits equal its credits, if and only if the computed fee is not negative; how much is created
  otherwise; and that with rates of 0 to 10000 basis points no amount up to (2^63 - 1) / 10000 can wrap.
* **Checkout is not in the lock order.**  It locks the payer's wallet and then the settlement wallet, whatever
  their numbers.  A deadlock with a transfer is reachable if and only if the payer's wallet number is above
  the settlement wallet's.
* **The limiter is a fixed window.**  `README.md:51` of the repository calls it a sliding token bucket; any
  interval as long as the window can accept up to 2 * limit - 1 requests, this bound is attained, and so the
  limit is exceeded in some such interval for every limit above one.
* **A card still pays from a deleted wallet.**  The payment does not look at the deletion mark, and an active card
  survives its wallet.  A deleted wallet is empty unless it settles for a merchant and is credited later; then
  such a payment, or a checkout whose net has wrapped, is proved to be all that takes money from it.
* **EXPIRED is never stored.**  The mark is written and then undone by the deferred rollback, so a committed
  session is only ever PENDING or PAID.
* **Replay ignores the body.**  A charge call with a used key gets the first reply whatever it asks for: the
  stored request hash is never compared.  For calls that do not overlap, a second settlement needs a lost
  read, or that no earlier answer was saved; for calls that overlap, it needs a lost read or a lookup
  that comes before the first save.  Both are proved to be the exact conditions.
* **A merchant at 100% is settled only for very large amounts.**  Up to (2^63 - 1) / 10000 the net leg is zero and
  the ledger's CHECK refuses it.  Above that the fee wraps, and the charge is settled as long as the net does
  not pass int64.
* **A webhook can be lost by its own publishes only.**  The error of a publication is only logged, and the error
  of a republish is ignored and the old message acknowledged.  Without crashes an event is gone if and only
  if one of these happened to it (`Webhooks.GoneIffLosesAlong`).  With crashes other copies may outlive such a
  loss: the event has disappeared if and only if it was never delivered nor dead-lettered and every copy put
  in the queue has been taken off it (`WebhookCrashes.DisappearedIffBalanced`, and by cause
  `WebhookCrashes.DisappearedIffDropped`).

## Model

| member | source | states |
|---|---|---|
| Repositories.TransactionRepository.Transfer | backend/internal/repos/transaction_repository.go:22-88 | The method, statement by statement with its ordered row locks, has exactly the declared verdict: the key, the debit, the credit and the activity row together, or the specific error and untouched tables |
| Repositories.CheckoutRepository.ExecuteWalletPayment | backend/internal/repos/checkout_repository.go:107-212 | Exactly the declared verdict: session, owner, currency and balance checks in order, then debit, net credit, fee credit, activity row and PAID mark together; every error, the expired one included, leaves the tables untouched |
| Repositories.CheckoutRepository.MoveFunds | backend/internal/repos/checkout_repository.go:165-183 | Succeeds if and only if the net credit (on top of the debit, which matters when the payer pays its own wallet) and the fee credit fit their columns; then gives the three balance changes and nothing else |
| Repositories.CardRepository.ProcessPayment | backend/internal/repos/card_repository.go:148-221 | Exactly the declared verdict: card status, card details, wrapped limit check, wallet balance, then the debit, the spend counter and the activity row together, or an error and no change |
| Repositories.WalletRepository.Delete | backend/internal/repos/wallet_repository.go:74-99 | Marks the owner's live wallet deleted only at a balance of zero; every refusal changes nothing |
| Repositories.ChargeRepository.ProcessSettlement | backend/internal/repos/charge_repository.go:100-178 | Exactly the declared verdict: the charge, all ledger rows and the three balances together, or an error and no change |
| Repositories.ChargeRepository.InsertEntries | backend/internal/repos/charge_repository.go:128-149 | The loop inserts exactly one row per entry, in order, if and only if every entry is positive, in range and new |
| Repositories.ChargeRepository.UpdateBalances | backend/internal/repos/charge_repository.go:151-175 | Succeeds if and only if all three credits fit; then the settlement wallet, clearing and fee revenue have moved and nothing else |
| Repositories.ChargeRepository.SaveIdempotency | backend/internal/repos/charge_repository.go:59-68 | A second save replaces status and body and keeps the first request hash; every other entry is unchanged |
| Repositories.ChargeRepository.SaveFailedCharge | backend/internal/repos/charge_repository.go:71-89 | Adds one FAILED charge and touches no balance, or changes nothing |
| Repositories.UpdateBalance | backend/migrations/000001_create_all_table.up.sql:15 | A balance UPDATE fails exactly when the new balance would break the column's type or CHECK |
| Outcomes.TransferCommitsIff | backend/internal/repos/transaction_repository.go:23-85 | A transfer commits if and only if the wallets differ and are both there and not deleted, key and row are new, the amount is positive and in the sender's wallet, and the conversion fits the receiver's |
| Outcomes.CheckoutCommitsIff | backend/internal/repos/checkout_repository.go:116-193 | A checkout commits if and only if its session is PENDING and in time, the wallet is there, not deleted, the payer's own, in the session's currency and holds the amount, the activity id is new and the credits fit |
| Outcomes.CardPayCommitsIff | backend/internal/repos/card_repository.go:159-208 | A card payment commits if and only if the card and its user exist, the card is ACTIVE, CVV and expiry match, the amount is positive, within the limit and in the card's wallet, and the activity id is new |
| Outcomes.SettleCommitsIff | backend/internal/repos/charge_repository.go:107-175 | A settlement commits if and only if the charge and every ledger row are new and in range, the settlement wallet is there and the three credits fit |
| Outcomes.DeleteCommitsIff | backend/internal/repos/wallet_repository.go:82-91 | A deletion commits if and only if the wallet is there, not deleted, the caller's own and empty |
| Outcomes.RefusedIffWrong | backend/internal/repos/checkout_repository.go:128-156 | For every operation and every error: it is refused with that error if and only if that is what is wrong with it and nothing the code checks earlier is |
| Outcomes.BalancesMove | backend/internal/repos/charge_repository.go:151-175 | Every committed operation moves every balance by exactly the stated amount, the payer being its own settlement wallet included, and no other |
| Outcomes.CommitRecords | backend/internal/repos/checkout_repository.go:185-204 | The rows a committed operation leaves, column by column: key, activity, session, card, charge, ledger and wallet rows |
| Outcomes.LoggedCould | backend/internal/repos/card_repository.go:168-193 | In every history every operation met its conditions at its own moment: no card that was not ACTIVE has paid, nobody has paid from or deleted another's wallet, nothing was paid late |
| Outcomes.BalanceDropsOnlyBy | backend/internal/repos/transaction_repository.go:69-77 | A wallet's balance drops only by a transfer from it, a checkout of its own user, a payment with a valid card on it, or a negative credit |
| Deletions.DeletedIffOwnerDeleted | backend/internal/repos/wallet_repository.go:82-91 | In every reachable state a wallet is deleted if and only if a deletion of it has committed, and every such deletion was its own user's |
| Deletions.DeletedWalletLosesIff | backend/internal/repos/card_repository.go:186-196 | A deleted wallet loses money if and only if a card on it pays, or it is a settlement wallet and a checkout's net has wrapped below zero: never by a transfer or as the payer of a checkout |
| Deletions.DeletedWalletStaysPut | backend/internal/repos/wallet_repository.go:87-91 | A deleted wallet that settles for nobody stays at zero under every operation |
| Deletions.CardPaysFromDeletedWallet | backend/internal/repos/card_repository.go:186 | A history from freshly seeded tables in which a deleted settlement wallet has been credited and a card payment takes money from it |
| Charging.ChargeService.ProcessCharge | backend/internal/services/charge_service.go:30-189 | The answer, the tables and the idempotency store after the call, on every path: replay, decline (402 only for insufficient funds), missing system account, failed settlement, success |
| Charging.AnswerTellsWhatHappened | backend/internal/services/charge_service.go:54-96 | On a call that is no replay: success, with status 200 and the charge's own id, exactly when the charge could settle; a decline's own reason without an id, with 402 exactly for insufficient funds and 400 otherwise; an internal error, with nothing changed, in every other case |
| Charging.SettledChargeIsBooked | backend/internal/services/charge_service.go:117-162 | A settled charge leaves its SUCCEEDED row, a gross clearing debit, a net payable credit, and a fee credit when there is a fee |
| Charging.SettledChargeMoves | backend/internal/repos/charge_repository.go:151-175 | It moves the merchant's wallet by the net, clearing by the gross, fee revenue by the fee, and no other balance |
| Charging.DeclineIsRecorded | backend/internal/services/charge_service.go:68-81 | A decline leaves a FAILED row without fee or net and changes nothing else in the tables |
| Charging.NewKeyIsRemembered | backend/internal/services/charge_service.go:83-93 | The first saved answer of a key is stored under its merchant and key with the request's hash, and no other entry changes |
| Charging.LaterCallReplaysAnswer | backend/internal/services/charge_service.go:33-46 | In any sequence of non-overlapping calls with other operations between them: once a call's answer is stored, a later call of that merchant and key whose own read succeeds gets the same reply and status and changes neither tables nor store, unless a call in between lost its read and saved another answer |
| Charging.StoredIffSaved | backend/internal/services/charge_service.go:33-93 | The store holds an answer for a key if and only if it did at the start or some call of the key was answered and saved |
| Charging.ReplaysIffSavedBefore | backend/internal/services/charge_service.go:39-44 | A call is answered from the store if and only if it has a key, its own read succeeds and an answer was saved before it; the reads and saves of all other calls do not matter |
| Charging.SettlesIffNotReplayed | backend/internal/services/charge_service.go:39-167 | A call settles if and only if it is accepted, there is room for it, its net is positive, and it is not such a replay |
| Charging.CacheEntryStays | backend/internal/services/charge_service.go:83-95 | A stored answer stays as it is as long as no later call of its key both loses its read and saves |
| Charging.AtMostOneSettlementIff | backend/internal/services/charge_service.go:165-188 | No two calls of a merchant and key both settle if and only if no call slips through: none comes after a settling one, could settle, and has lost its read or has no saved answer before it |
| Charging.AtMostOneSettlementPerKey | backend/internal/services/charge_service.go:165-188 | In particular at most one call of a key settles when no read of it is lost and settling calls are saved |
| Charging.TwoCallsSettleTwiceIff | backend/internal/services/charge_service.go:39-186 | Two calls with one new key, one after the other and with room for both, both settle if and only if the first one's save or the second one's read is lost |
| Charging.SettlesIffNetPositive | backend/internal/services/charge_service.go:101-167 | An accepted charge that is not a replay settles if and only if there is room for it (accounts present, new identifiers, positive int64 amount, credits that fit) and its net is positive; otherwise it fails and changes neither tables nor store |
| Charging.FullRateSettlesWhenTheFeeWraps | backend/internal/services/charge_service.go:102-104 | With room, a merchant at 100% is settled if and only if the amount is above (2^63 - 1) / 10000 and the net does not pass int64 |
| OverlappingCharges.SettledIffNothingAvailable | backend/internal/services/charge_service.go:39-186 | For any number of overlapping calls and other operations between their statements: an accepted call that ends without an error has settled if and only if it has no key, lost its read, or looked up when the store was empty and before every save of its key |
| OverlappingCharges.AtMostOneSettledIff | backend/internal/services/charge_service.go:39-186 | Of any number of overlapping calls of one key at most one has settled, if and only if no other accepted call that came through without an error lost its read or looked up with nothing yet saved |
| OverlappingCharges.RivalsSettleTwiceIff | backend/internal/services/charge_service.go:39-186 | Of two overlapping accepted calls with one new key and no lost read or save, the one that looks up first settles, and the other does too if and only if its lookup came before the first one's save |
| OverlappingCharges.RunSettlesIff | backend/internal/services/charge_service.go:106-167 | The middle step settles exactly when the call could settle, and then its SUCCEEDED charge is a new row; an accepted call that does not settle leaves the tables alone |
| OverlappingCharges.UninterruptedIsChargeSpec | backend/internal/services/charge_service.go:30-189 | Lookup, settlement and save with nothing between them do what ProcessCharge does alone |
| Specs.SoloIsSpec | backend/internal/repos/transaction_repository.go:27-87 | For every operation and all tables: the statement program, run alone, gives exactly the declared verdict |
| Specs.TransferRunsToSpec | backend/internal/repos/transaction_repository.go:33-87 | The six transfer statements, with locks taken in wallet-number order, amount to the declared transfer |
| Specs.CheckoutRunsToSpec | backend/internal/repos/checkout_repository.go:112-211 | The checkout statements, including the expired branch and the payer-is-settlement-wallet case, amount to the declared checkout |
| Specs.CardPayRunsToSpec | backend/internal/repos/card_repository.go:159-211 | The card payment statements, reading card, user and wallet under lock, amount to the declared payment |
| Specs.SettleRunsToSpec | backend/internal/repos/charge_repository.go:101-177 | The settlement statements, for any number of ledger entries, amount to the declared settlement |
| Specs.ShortRunsToSpec | backend/internal/repos/wallet_repository.go:81-97 | Deletion and the one-statement inserts and updates amount to their declared effect |
| Programs.PrefixDependsOnLockedRows | backend/internal/repos/card_repository.go:159-186 | What a transaction has done so far depends only on rows it has locked: commits elsewhere cannot change it |
| Programs.PrefixWritesOnlyLockedRows | backend/internal/repos/checkout_repository.go:144-179 | A transaction writes only rows it has locked |
| Interleaving.CommittedStateIsReplay | backend/internal/repos/transaction_repository.go:27-87 | Serializability: every committed state that any interleaving of any number of transactions reaches is the one-at-a-time replay of the committed operations in commit order; each committed transaction is in the log once, and aborted ones left no trace |
| Reachability.ReachableIffReplay | backend/internal/repos/transaction_repository.go:27-87 | The converse of serializability as well: the logs and committed tables that interleavings reach are exactly the one-at-a-time replays, none missing and none more |
| Interleaving.CommitIsSpec | backend/internal/repos/transaction_repository.go:87 | At its commit, a transaction's overlay is its declared effect on the tables committed at that moment |
| Interleaving.CommitLeavesOthers | backend/internal/repos/charge_repository.go:151-177 | A commit does not disturb anything another running transaction has read or computed |
| History.CommitKeepsRows | backend/migrations/000002_create_gateway_and_ledger_tables.up.sql:48-59 | No operation removes a row, breaks a constraint, rewrites a ledger, charge or activity row, undeletes a wallet, or moves a session other than from PENDING to PAID |
| History.IssuedStaysTrue | backend/internal/repos/checkout_repository.go:107 | What the service read before the transaction (merchant, rate, settlement wallet) is still true at any later moment |
| Deadlock.SomeTransactionCanMove | backend/internal/repos/transaction_repository.go:41-58 | Deadlock freedom: in every reachable state with unfinished transfers, card payments, settlements, deletions and in-order checkouts, one can take its next statement without waiting |
| Deadlock.EveryScheduleFinishes | backend/internal/repos/transaction_repository.go:33-87 | From every such state every run of statements and commits is no longer than the work left, and one that cannot be continued has left nobody unfinished |
| Deadlock.EveryTransactionCanFinish | backend/internal/repos/transaction_repository.go:33-87 | From every such state there is a schedule in which every transaction commits or returns its own error, none chosen as a victim |
| Deadlock.LocksAscend | backend/internal/repos/charge_repository.go:133-175 | Every lock requested is already held or above all locks held, in the order key, charge, ledger row, session, card, user, wallets by number, clearing, fee, activity row |
| Deadlock.DeadlockIffOutOfOrder | backend/internal/repos/checkout_repository.go:144-172 | With a payable checkout in the system a deadlock is reachable if and only if its payer's wallet number is above the settlement wallet's |
| Deadlock.OutOfOrderCheckoutCanDeadlock | backend/internal/repos/checkout_repository.go:165-172 | The schedule: the checkout holds the payer's wallet, a transfer between the same wallets holds the other |
| Laws.CommitKeepsLaw | backend/internal/repos/checkout_repository.go:159-183 | Each of the seven totals is unchanged by every committed operation, the payer being its own settlement wallet included |
| Laws.TransferKeepsLaw | backend/internal/repos/transaction_repository.go:69-82 | A transfer's debit, credit and activity row cancel in every total |
| Laws.CheckoutKeepsLaw | backend/internal/repos/checkout_repository.go:160-204 | A checkout's debit, net and fee credits, activity row and PAID mark cancel in every total |
| Laws.CardPayKeepsLaw | backend/internal/repos/card_repository.go:196-208 | A card payment's debit, spend counter and activity row cancel in every total |
| Laws.SettleKeepsLaw | backend/internal/services/charge_service.go:118-149 | A settlement's balances, charge row and ledger legs cancel in every total |
| Laws.ReplayKeepsLaw | backend/internal/repos/charge_repository.go:128-175 | Over any history every total keeps its opening value |
| Guarantees.MoneyIsConserved | backend/internal/repos/charge_repository.go:151-175 | In every reachable state in which no PAID session's and no SUCCEEDED charge's fee is negative, wallets + fee revenue - clearing + card spend - (converted - amount) of every transfer has its opening value |
| Guarantees.InRangeNoFeeWraps | backend/internal/services/charge_service.go:102-104 | That hypothesis holds in every reachable state with rates of 0 to 10000 basis points and no paid session or succeeded charge above (2^63 - 1) / 10000 |
| WrappedFees.WrappedChargeUnbalances | backend/internal/services/charge_service.go:102-149 | From any freshly seeded tables, an accepted charge that has room and a negative fee is committed by some run, which ends with debits unlike credits and a changed total of money |
| WrappedFees.WrappedCheckoutCreates | backend/internal/repos/checkout_repository.go:159-183 | The same for a checkout: a run ends with its session PAID and a changed total |
| WrappedFees.BalanceCanFail | backend/internal/services/charge_service.go:103 | Such freshly seeded tables exist, with a charge and with a checkout whose negative fee commits |
| WrappedFees.FullRateChargeCommits | backend/internal/services/charge_service.go:103 | A concrete merchant at 100% and an amount of 10^15 that can be settled |
| Guarantees.MoneyChangesByCreated | backend/internal/services/charge_service.go:102-104 | With no bound on amounts, that total has grown by exactly what the fees of paid sessions and succeeded charges created by wrapping |
| Guarantees.MoneyMovesByDrift | backend/internal/repos/checkout_repository.go:159-183 | One committed payment moves the total by exactly net + positive fee - amount |
| Guarantees.PaymentConservesIffFeeNonNegative | backend/internal/repos/checkout_repository.go:160-161 | A committed checkout or settlement conserves money if and only if its int64 fee is not negative |
| Guarantees.ClearingIsSumOfDebits | backend/internal/repos/charge_repository.go:162-167 | In every reachable state the clearing balance is the sum of the ledger's clearing debits |
| Guarantees.FeeRevenueIsSumOfFees | backend/internal/repos/charge_repository.go:169-175 | In every reachable state fee revenue is the sum of the ledger's fee credits and the fees of PAID sessions |
| Guarantees.ChargeLegsBalance | backend/internal/services/charge_service.go:118-149 | In every reachable state a SUCCEEDED charge's debits total its amount and its credits its amount plus what a wrapped fee created; any other charge has no legs |
| Guarantees.LegsBalanceIffFeeNonNegative | backend/migrations/000002_create_gateway_and_ledger_tables.up.sql:48-49 | For every SUCCEEDED charge in every reachable state, debits equal credits if and only if its fee is not negative |
| Guarantees.ReplayKeepsChargesPriced | backend/internal/services/charge_service.go:102-104 | Every SUCCEEDED charge carries the fee and net of its merchant's rate |
| Guarantees.SpentIsSumOfPayments | backend/internal/repos/card_repository.go:196-208 | In every reachable state a card's spend counter is the sum of the activity rows that carry the card |
| Guarantees.StatementAgreesWithBalance | backend/internal/repos/transaction_repository.go:69-82 | In every reachable state, for a wallet that settles for no merchant, balance less opening balance is the total flow of its COMPLETED rows |
| Guarantees.RecordsHoldWhenReachable | backend/internal/repos/card_repository.go:180-200 | In every reachable state balances are not negative, 0 <= spent <= limit on every card, deleted wallets that settle for nobody are empty, keys match transfers, and paid sessions match their payments |
| Guarantees.KeyIsExactlyOneTransfer | backend/internal/repos/transaction_repository.go:33-39 | In every reachable state, copies with the same key running concurrently included: a key is taken if and only if exactly one committed transfer carries it, never two, and that transfer's row with a positive amount is stored |
| Guarantees.RolledBackKeyIsFree | backend/internal/repos/transaction_repository.go:31-39 | A key that no transfer has committed lets a retry past its insert as soon as nobody holds it |
| Guarantees.SessionIsPaidExactlyOnce | backend/internal/repos/checkout_repository.go:132-204 | In every reachable state a session is PAID if and only if exactly one checkout of it committed, in time, and its row is stored for the session's amount, from a wallet of the payer in the session's currency; otherwise it is still PENDING |
| Guarantees.SessionsArePendingOrPaid | backend/internal/repos/checkout_repository.go:136-139 | No committed session is EXPIRED or FAILED |
| Records.CommitKeepsDeletedEmpty | backend/internal/repos/wallet_repository.go:82-91 | Every operation keeps deleted wallets, other than settlement wallets, at balance zero |
| Records.CommitKeepsCardLimits | backend/internal/repos/card_repository.go:180 | Every operation keeps every card within its limit |
| Records.WrappedSumDoesNotPass | backend/internal/repos/card_repository.go:180-200 | An amount whose int64 sum wraps past the limit check does not fit the counter's column, so it cannot commit |
| Records.CommitKeepsActivities | backend/internal/repos/transaction_repository.go:82 | A key is taken exactly when a transfer's activity row carries it; a card row names no payee |
| Records.CommitKeepsSessions | backend/internal/repos/checkout_repository.go:185-204 | Each PAID session keeps its own activity row, shared with no other session |
| Records.CommitWritesOnly | backend/internal/repos/charge_repository.go:101-177 | The frame of each operation: every row it does not name is as it was |
| Money.SplitConservesIffFeeNonNegative | backend/internal/services/charge_service.go:102-104 | For every positive int64 amount and any rate, net plus positive fee equals the amount if and only if the int64 fee is not negative |
| Money.FeeWithoutOverflow | backend/internal/repos/checkout_repository.go:159-161 | For 0 to 10000 basis points and 1 <= amount <= (2^63 - 1) / 10000 nothing overflows, 0 <= fee <= amount, and fee + net = amount |
| Money.NothingLeftIff | backend/internal/services/charge_service.go:102-104 | For every positive int64 amount and 0 to 10000 basis points, the net is zero or negative if and only if the rate is 100% and the amount at most (2^63 - 1) / 10000, or a wrapped fee takes the net past int64 |
| Money.SplittingLowersTheFee | backend/internal/repos/checkout_repository.go:160 | Splitting a total into n payments lowers the total fee by 0 to n - 1 minor units |
| Statements.GetTransactions | backend/internal/repos/transaction_repository.go:115-173 | Returns the wallet's COMPLETED rows, all of them and each once, converted_amount falling back to amount |
| Statements.StatementTotals | backend/pkg/export/pdf.go:66-74 | The loop's totals are the inflow and outflow of the listed rows, in int64 |
| Statements.TotalsAreTableSum | backend/pkg/export/pdf.go:66-74 | Whatever order the rows come in, inflow less outflow is the sum over the table: each row counts exactly once |
| Statements.StatementIsRight | backend/pkg/export/pdf.go:68 | In every reachable state, for a wallet that settles for no merchant, inflow less outflow is current less opening balance, and the card-id test never changes a row's side |
| Statements.PrintedTotalsDifferRight | backend/pkg/export/pdf.go:66-73 | The printed int64 totals differ by the true difference even when both have wrapped |
| Transfers.TransactionService.Transfer | backend/internal/services/transaction_service.go:42-86 | The service's verdict on every path: missing key, unknown wallet, unknown rate, the repository's error, or the transfer with the rounded conversion; exactly the transfers that commit go once to the webhook queue and, if there is a notification service, once to the receiver with the converted amount |
| Transfers.TransferSucceedsIff | backend/internal/services/transaction_service.go:42-66 | A transfer succeeds if and only if its key is new, both wallets are live and different with a rate between them, the amount is positive and there, and the conversion fits; then the sender has the amount less, the receiver the conversion more, and no other wallet has changed; otherwise nothing has |
| Transfers.TransferRefusalIsTrue | backend/internal/services/transaction_service.go:43-66 | Each of the service's refusals is given exactly when it is true, and a repository error says what is wrong |
| Transfers.RatesAreConsistent | backend/internal/services/exchange_service.go:22-29 | Going through a third currency, or there and back, is within a tenth of the direct rate, which then exists |
| Transfers.RatesThereAre | backend/internal/services/exchange_service.go:33-43 | A rate exists exactly between equal currencies, where it is 1, and between the three traded ones, where it is positive |
| Transfers.RatesHaveTheirDirection | backend/internal/services/exchange_service.go:23-28 | A euro is worth more than a dollar and a dollar more than a lira, in both directions of each pair |
| Transfers.HalfGoesAwayFromZero | backend/internal/services/transaction_service.go:60 | A conversion that falls on a half goes away from zero |
| Transfers.ConversionIsWithinHalf | backend/internal/services/transaction_service.go:60 | Each conversion is within half a minor unit of exact, keeps the sign, and is exact at rate 1 |
| Transfers.ConversionIsMonotone | backend/internal/services/transaction_service.go:60 | Sending more never delivers less |
| Transfers.PreReadConversionStaysRight | backend/internal/services/transaction_service.go:46-60 | The conversion read outside the transaction is right in every later state |
| Transfers.CommittedConversionIsCurrent | backend/internal/services/transaction_service.go:46-63 | A transfer that commits after any interleaving credits the conversion for the wallets' currencies at its commit |
| Webhooks.MerchantWebhookConsumer.HandleDelivery | backend/internal/worker/webhook_worker.go:129-175 | The broker after one delivery on every path: unparsable, delivered, republished with one more retry, lost, dead-lettered |
| Webhooks.CountReadIsDetermined | backend/internal/worker/webhook_worker.go:137-145 | For every header the count read is determined: an int32 is itself, an int is the one int32 equal to it modulo 2^32, anything else is zero |
| Webhooks.RepublishedCountIsRead | backend/internal/worker/webhook_worker.go:137-164 | A count written by a republish is read back as written, one more than the count before, whatever header that came from |
| Webhooks.MerchantWebhookConsumer.ConsumeAll | backend/internal/worker/webhook_worker.go:128-176 | The loop empties the queue under any outcomes; delivered, dead-lettered and lost events then make up exactly the published ones, and nothing is newly lost if every publish succeeds |
| Webhooks.RunKeepsSound | backend/internal/worker/webhook_worker.go:128-175 | After any run of publications and deliveries each event is in exactly one place, tried at most 4 times and backed off at most 12 seconds, a dead-lettered one exactly so; an event counts as lost if and only if it did before or a publish of its own lost it |
| Webhooks.OutcomesAlong | backend/internal/worker/webhook_worker.go:149-172 | Over any run an event becomes delivered exactly when a delivery of it succeeds, and dead-lettered exactly when one fails with no retry left |
| Webhooks.UnparsableIsRejected | backend/internal/worker/webhook_worker.go:131-135 | A message that does not parse leaves the queue for good and touches no event |
| Webhooks.GoneIffLosesAlong | backend/internal/worker/webhook_worker.go:154-167 | Without crashes, exactly when a published event is neither queued, delivered nor dead-lettered: its own publication failed, or its own republish did after a failed delivery with retries left |
| Webhooks.HandlingKeepsSound | backend/internal/worker/webhook_worker.go:147-173 | One delivery keeps the account and strictly decreases the work left in the queue |
| WebhookCrashes.DisappearedIffBalanced | backend/internal/worker/webhook_worker.go:128-173 | With a crash and redelivery of unacknowledged messages between any two steps, exactly when an event disappears: it was published, never delivered and never dead-lettered, and its publications and republishes that succeeded are as many as its acknowledgements and rejections |
| WebhookCrashes.DisappearedIffDropped | backend/internal/worker/webhook_worker.go:161-167 | The same by cause: a published event neither delivered nor dead-lettered has disappeared if and only if acknowledgements after its own failed republishes have dropped as many copies as publications, and crashes between a republish and its acknowledgement, have put in the queue |
| WebhookCrashes.NoEventDisappears | backend/internal/worker/webhook_worker.go:161-167 | In particular a published event none of whose own publishes and republishes failed is still queued, delivered or dead-lettered; and no copy has more than 3 retries |
| WebhookCrashes.BehaviourKeepsInv | backend/internal/worker/webhook_worker.go:128-175 | The invariant behind it over any behaviour: the handled copy is the first unacknowledged one, and its event is elsewhere before it is acknowledged |
| WebhookCrashes.OnlyExhaustedIsRejected | backend/internal/worker/webhook_worker.go:168-172 | Only the first unacknowledged copy, retried three times, is dead-lettered, whatever crashes came before |
| WebhookCrashes.FailedRepublishLosesEvent | backend/internal/worker/webhook_worker.go:162-167 | The hypothesis is needed: a failed republish followed by the acknowledgement loses the event |
| RateLimiter.RedisRateLimiter.Limit | backend/internal/middleware/redis_rate_limiter.go:22-68 | Counts the request, starts the window only on the first, accepts up to the limit, and tells a rejected client to retry exactly when the counter expires |
| RateLimiter.LimiterBound | backend/internal/middleware/redis_rate_limiter.go:38-50 | For every timeline of requests by any clients, any interval as long as the window accepts at most 2 * limit - 1 requests of one key |
| RateLimiter.WindowBound | backend/internal/middleware/redis_rate_limiter.go:38-50 | The same bound for one key, from any counter state |
| RateLimiter.WindowBoundIsTight | backend/internal/middleware/redis_rate_limiter.go:46-48 | The bound is attained for every limit of at least one and every window of at least two time units |
| RateLimiter.ExceedsInWindowIff | backend/internal/middleware/redis_rate_limiter.go:38-50 | More than the limit can be accepted in some interval as long as the window if and only if the limit is at least two |
| RateLimiter.LifetimeBound | backend/internal/middleware/redis_rate_limiter.go:38-50 | One counter lifetime accepts at most the limit |
| RateLimiter.RequestsNeverExtend | backend/internal/middleware/redis_rate_limiter.go:46-50 | No request, rejected ones included, moves the expiry of a live counter |
| RateLimiter.AcceptedAsIfAlone | backend/internal/middleware/redis_rate_limiter.go:32 | A key's acceptances are those of its own requests alone |
| Notifications.Hub.Register | backend/internal/notifications/hub.go:17-28 | Closes exactly the user's previous channel, never one already closed, and makes a fresh one the user's entry; a channel is open if and only if it is its user's current entry |
| Notifications.Hub.Unregister | backend/internal/notifications/hub.go:31-38 | Closes and forgets exactly the user's current channel |
| Notifications.Hub.SendToUser | backend/internal/notifications/hub.go:41-58 | True if and only if the user is connected and the buffer has room; only that open channel gets the message, at its end |
| Notifications.Channel.TryReceive | backend/internal/notifications/hub.go:25 | Messages received and still buffered are always exactly the accepted ones in order, at most ten buffered |
| Notifications.Hub.Receive | backend/internal/notifications/hub.go:25 | A reader that takes from its own channel, closed or not, gets the oldest buffered message and keeps the hub's invariant |
| HubRuns.RunKeepsSafe | backend/internal/notifications/hub.go:17-58 | Over any sequence of registrations, ends of streams, sends and receives: no channel is closed twice or given a message after its close, a channel is open exactly while it is its user's current entry, each reader gets the accepted messages in order, and nothing received or accepted is taken back |
| HubRuns.TenFit | backend/internal/notifications/hub.go:25-57 | A fresh stream that nobody reads takes the first ten messages in order and no more |
| HubRuns.Handlers.RunAll | backend/internal/notifications/hub.go:17-58 | Run on the hub itself, any sequence of calls leaves every channel as the value-level run says |
| Luhn.CalculateLuhnCheckDigit | backend/pkg/utils/card_helper.go:25-41 | The loop computes the check digit of the prefix |
| Luhn.ValidateLuhn | backend/pkg/utils/card_helper.go:59-85 | True if and only if the digits number 13 to 19 and their Luhn sum is a multiple of ten |
| Luhn.GenerateCardNumber | backend/pkg/utils/card_helper.go:10-21 | Sixteen digits starting 411111 that validate, for every number drawn; empty when the random source fails |
| Luhn.DifferentDrawsDiffer | backend/pkg/utils/card_helper.go:17-20 | Different draws give different card numbers |
| Luhn.SumOfLastTwo | backend/pkg/utils/card_helper.go:69-82 | The sum takes the last digit as it is and the one before it as the digits of its double, and so on to the left |
| Luhn.LengthMatters | backend/pkg/utils/card_helper.go:66-68 | Fewer than 13 or more than 19 digits are never valid, and every length between is possible |
| Luhn.KnownNumber | backend/pkg/utils/card_helper.go:59-83 | The number of a 4 and fifteen ones is valid, and with another last digit it is not |
| Luhn.AppendedDigitIsUnique | backend/pkg/utils/card_helper.go:39-40 | For every prefix of 12 to 18 digits the computed digit validates and no other digit does |
| Luhn.OneChangedDigitIsDetected | backend/pkg/utils/card_helper.go:59-83 | Changing any one digit of a valid number, written with any separators, makes it invalid |
| Luhn.SwapIsDetectedUnlessZeroNine | backend/pkg/utils/card_helper.go:59-83 | Swapping two different digits with no digit between them, whatever the separators, keeps a number valid if and only if they are 0 and 9 |
| Luhn.NonDigitsAreIgnored | backend/pkg/utils/card_helper.go:60-65 | Characters that are not digits never affect the result |

## Left out

- Specs.TransferRunsToSpec: a wallet is named by its wallet_number only; the UUID behind it, which the later statements use, is not modelled apart.  The idempotency key is taken as one UUID, so two spellings of one UUID are one key.
- Interleaving.CommittedStateIsReplay: row locks and unique-key waits are the explicit ones; foreign-key share locks and gaps between rows are not modelled, and a statement on a missing row takes a lock on it.
- Deadlock.DeadlockIffOutOfOrder: PostgreSQL's deadlock detector, which would break such a deadlock by failing one transaction, is not modelled.
- Repositories.CardRepository.ProcessPayment: decryption of the stored CVV is left out; the model compares the plain value, and a decryption failure is a mismatch.
- Charging.LaterCallReplaysAnswer: the stored body is taken to decode to what was encoded, so a record that does not decode, which the code treats as a miss, is a lost read.
- OverlappingCharges.RunSettlesIff: the lookups of the two system accounts and the settlement transaction are one step; the accounts are never removed.
- Charging.ChargeService.ProcessCharge: the card validator and the slicing of the last four digits are not part of this model; the validator's verdict is an input.
- Statements.GetTransactions: date bounds, the order by time, and the variant for all wallets of a user.
- Statements.StatementIsRight: settlement wallets are excluded, because a checkout logs the gross amount and credits the net, and a charge credits the wallet without an activity row.
- Transfers.ConversionIsWithinHalf: rates and products are exact reals; float64 rounding error is not modelled.  It says nothing about round trips: in the table, EUR to TRY and back multiplies to more than one.
- Transfers.ConversionIsMonotone: over exact reals, like the bound above.
- Transfers.TransactionService.Transfer: the webhook queue never fills up, where the channel of 100 would make the call wait, and the notification carries the amount and currency instead of its text and e-mail address.
- RateLimiter.RedisRateLimiter.Limit: INCR and EXPIRE are one step; Redis errors and a nil client, which let every request through, and the rounding of Retry-After to whole seconds are not modelled.
- Notifications.Hub.Unregister: keeps the lifecycle safe but not the newer stream open; a stale stream's Unregister closes the newer channel of the same user, as the code does.
- Webhooks.MerchantWebhookConsumer.Enqueue: the in-memory fallback channel and the broker's connection and declarations; a missing client counts as a failed publish.
- Freshness of generated identifiers: a duplicate is a constraint error in the model, as in the database.
- Per-currency totals of the system accounts, whose currency the code never compares with the payment's.
- The one-card-per-wallet check, which is not atomic, and the uniqueness of a user's wallet per currency, which the deleted_at column weakens.
- The cached exchange service: only a staleness bound would follow.
- HTTP handlers, router, CORS, cookies, JWT, bcrypt, metrics, configuration, seeding and the frontend: plumbing around the modelled code.
- AES-GCM, SHA-256, JSON, CSV and PDF drawing: library behaviour; the request hash is an opaque number.
