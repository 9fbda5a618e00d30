# Verified model of the NexaFx money platform

A Dafny model of the parts of the NexaFx backend that keep state or compute, with proofs about every run of them. Each module models one service. An object whose methods change its fields is a class; each of its methods is proved equal to one step of a pure function, and the theorems are about that function over every sequence of steps. An `await` is a step boundary where interleaving matters; a call into a database, a cache or a network is a step that may fail, and the failures are parameters.

| module | what it models |
|---|---|
| `RateCache` | the TTL and LRU cache of exchange rates: an insertion-ordered map with promotion on a hit |
| `Wallets` | the balance store: rounding to cents, the non-negative guard, one database unit per adjustment |
| `Transfers`, `TransferAnswers`, `SweptRows` | transfers as steps, any number of them interleaved with failures and with the jobs that overwrite pending rows; what each call answers, cause by cause; what an overwritten row says |
| `Transactions` | withdrawal, swap with three attempts, cancellation, reversal |
| `Operations` | transfers, withdrawals, swaps and reversals in one ledger, in any interleaving |
| `Conservation`, `Reversals` | what such interleavings keep: the money, how often a row is reversed, and what a reversal undoes |
| `Sequential` | that each of these operations, left alone, ends as its sequential description says |
| `ScheduledJobs` | the expiring job lock, the per-transaction locks and the timeout sweep, for any number of workers, some of which crash |
| `Idempotency` | the guard, the interceptor and the key table |
| `SingleFlight` | the shared wallet balance fetch, in any interleaving of callers, loaders and invalidations |
| `RefreshTokens` | token families, rotations being a read and a save with other calls in between |
| `EndpointRateLimit`, `PerUserRateLimit` | the pruned sliding window; the window that restarts on expiry |
| `TransactionLimits` | the daily and monthly accumulators |
| `KycTiers`, `KycAnswers` | tier upgrade requests and their reviews, any number of them interleaved step by step; what each step answers |
| `Ohlc` | hourly candles |
| `Statements` | opening balances, lines and closing balances |
| `Csv` | the two exports, against a reader for section 2 of RFC 4180 with LF as the line break |
| `Sorting`, `Common` | a stable sort, totals over sequences, shared datatypes |

`dafny verify dfyconfig.toml` checks everything.

## What the model shows about the code

Some promises hold only under a condition. Each of these is proved, with the condition or with a run that breaks the promise.

- Amounts ending in exactly half a cent create money. A credit of half a cent adds a cent and a debit of it takes none, so a completed transfer, a refund and a reversal of such an amount each leave a cent too much (`Wallets.DebitThenRefund`, `Transfers.Conservation`, `Transactions.ReversalUndoesTransfer`); n transfers of half a cent by one sender take nothing and create n cents (`Transfers.HalfCentsAddUp`). With whole cents nothing is created or lost (`Transfers.WholeCentConservation`).
- The sign of an amount is checked by transfers only. A withdrawal of minus half a cent or less passes every guard, is COMPLETED and pays its absolute value into the wallet (`Transactions.NegativeWithdrawalPays`); so does a swap of such a source amount, which also pays its target when that is half a cent or more (`Transactions.NegativeSwapPaysBoth`). A withdrawal does not raise its balance if and only if its total is above minus half a cent (`Transactions.WithdrawalMoney`), and the same holds for swaps (`Transactions.SwapDirection`).
- A negative amount also makes room in the limits: half a day's limit taken back and never completed lets one and a half times the limit complete (`TransactionLimits.NegativeAmountBreaksLimit`). Whatever completes of a day stays within the day's total if and only if no accepted amount of that day is negative (`TransactionLimits.WhateverCompletes`).
- A reversal undoes what its operation did only if that got far enough, which the code does not look at. A full reversal of a transfer between two accounts leaves nothing moved if and only if the transfer was credited, or its debit takes nothing, and no half cent is left; that of a withdrawal if and only if the withdrawal took nothing or gave it back, but for half cents; that of a swap between two wallets if besides it credited nothing (`Reversals.UndoneExactly`, for every kind of row). A transfer that was never debited costs its receiver the amount when it is reversed (`Reversals.UndebitedTransferCosts`), and a reversed withdrawal is marked and gives nothing back (`Reversals.ReversedWithdrawalGivesNothing`).
- A reversal reads the mark on its row without a lock and writes it last. Any number of overlapping reversals all take the amount from a receiver that can pay as often (`Reversals.OverlappingReversals`); a row's legs move once if it is marked and once more for every reversal that overlapped, lost its rows or has not saved (`Reversals.ReversalsCounted`).
- A swap whose save fails after its credit is credited again by the next attempt, up to three times, and then refunded (`Transactions.SwapCredits`, `Transactions.LostSavesPayThreeTimes`).
- A transfer that is stopped between its legs stays PENDING and has taken the sender's money. The timeout job and a cancellation then overwrite the row with no refund, and may even hide a transfer that completed, any that the sender can pay (`Transfers.SweepCanHideCompletion`). A row so overwritten tells the truth, that no money of it has moved or will, if and only if its transfer had ended before its debit, or is too small to move a cent, or is not yet debited in a currency of which no cent is left anywhere (`SweptRows.SweptRowIsHonest`): one cent is enough to give its sender any amount, half a cent at a time.
- The job lock is safe only while every run is shorter than the lock's time to live; a longer run deletes its successor's lock (`ScheduledJobs.OverrunBreaksExclusion`).
- Two overlapping requests with one idempotency key both run the handler, and so does a re-send after a failed store (`Idempotency.OverlapRunsTwice`, `Idempotency.FailedStoreRunsTwice`).
- Exported column names are not escaped: the round trip holds if and only if there is a column and no name holds a comma, a quote or a line feed (`Csv.CsvRoundTrip`).
- The reported `resetAt` of the per-user limit is one millisecond early (`PerUserRateLimit.ResetAtIsOneEarly`), and a closed minute can admit 2 L - 1 calls (`PerUserRateLimit.BurstAttainsBound`).
- Day and month of a limit check are two clock readings, so a call around midnight may be booked under the old day and the new month (`TransactionLimits.StraddlingCallSplits`).
- A loader that throws before it returns a promise leaves an entry that is never removed; after that this user's loader never runs again (`SingleFlight.WedgedForever`). An invalidation guarantees fresh data if and only if no fetch of the user is running (`SingleFlight.FreshAfterInvalidation`).
- A tier request reads the user, looks for a pending request and writes its own in three steps; a review reads, saves its decision and writes the tier in three more. A user's approved requests are at most the levels gained, plus the tiers still to be written, plus one for each tier never written and three for each request written late and each decision saved over an earlier one (`KycTiers.ApprovalsBound`). Tiers never written allow any number of approvals (`KycTiers.LostTiersHaveNoBound`), and late requests reach the bound (`KycTiers.LateRequestsCostThreeEach`). Two overlapping requests are both pending and can both be approved (`KycTiers.OverlappingRequests`); the second approval may lower the level (`KycTiers.SecondApprovalLowers`). A rejection that overlaps an approval leaves a REJECTED request whose tier was given (`KycTiers.RejectedYetRaised`).
- Token families are chains all along a run if and only if no rotation saves over a row that another one has replaced since it was read (`RefreshTokens.ChainsExactly`). Two rotations that both read before either saves leave two accepted tokens of one family (`RefreshTokens.OverlappingRotations`), and a revocation between read and save leaves the new token alive (`RefreshTokens.RevocationMissed`).
- A transaction with oneself, as deposits are recorded, lowers the balance shown on a statement (`Statements.SidesOfTransaction`), and a statement asked for with a currency code that is not in capitals is empty (`Statements.OtherSpellingIsEmpty`).

## Model

| member | source | states |
|---|---|---|
| RateCache.StackInclusion | src/exchange-rates/cache/exchange-rates.cache.ts:16-56 | for any limits n <= m, the same calls at the same clock readings keep the smaller cache a subsequence of the larger one, the size gap at most the difference of the capacities |
| RateCache.StepKeepsInclusion | src/exchange-rates/cache/exchange-rates.cache.ts:16-48 | one get, set, invalidate or clear on both caches keeps that inclusion |
| RateCache.SmallHitIsLargeHit | src/exchange-rates/cache/exchange-rates.cache.ts:16-31 | a hit in the smaller cache is a hit with the same value in the larger one |
| RateCache.HoldsLastWrite | src/exchange-rates/cache/exchange-rates.cache.ts:33-48 | every held entry is the last write of its key since the key was invalidated |
| RateCache.HitIsLastWrite | src/exchange-rates/cache/exchange-rates.cache.ts:16-31 | a hit returns the last set of the key, within its time to live |
| RateCache.MissMeansEvicted | src/exchange-rates/cache/exchange-rates.cache.ts:39-45 | a miss that an unbounded map would have answered needs capacity many distinct other keys touched since the key was last touched |
| RateCache.EvictionNeedsTouches | src/exchange-rates/cache/exchange-rates.cache.ts:39-45 | the set that evicts a key is preceded by that many touches |
| RateCache.OrderIsRecency | src/exchange-rates/cache/exchange-rates.cache.ts:26-28 | the order of the map is the order of last touches |
| RateCache.SizeBound | src/exchange-rates/cache/exchange-rates.cache.ts:39-47 | the size never exceeds the larger of one and the limit |
| RateCache.RunDistinct | src/exchange-rates/cache/exchange-rates.cache.ts:36-47 | no key is held twice |
| RateCache.KeyIdentifiesPair | src/exchange-rates/cache/exchange-rates.cache.ts:62-64 | two pairs share a key exactly if they agree up to case, when no source code holds a colon |
| RateCache.KeyCollision | src/exchange-rates/cache/exchange-rates.cache.ts:62-64 | without that proviso two different pairs share a key |
| RateCache.GetExactly | src/exchange-rates/cache/exchange-rates.cache.ts:16-31 | in any run a get answers with the entry of its key exactly if it is no older than the time to live; that entry is then last, an older one is gone, every other entry stays, and the size falls by one exactly if one is gone |
| RateCache.GetKeepsOthers | src/exchange-rates/cache/exchange-rates.cache.ts:16-31 | so after a get every other key gets the answer it would have got, and nothing too old is held for its own |
| RateCache.SetExactly | src/exchange-rates/cache/exchange-rates.cache.ts:33-48 | in any run a set ends the map with its entry; of the other keys all stay, or, when as many as the limit are held, all but the first |
| RateCache.InvalidateExactly | src/exchange-rates/cache/exchange-rates.cache.ts:50-56 | an invalidation drops its key and no other, a clear everything |
| RateCache.ExchangeRatesCache.Get | src/exchange-rates/cache/exchange-rates.cache.ts:16-31 | answers and leaves the map as the get step says: expired entries go, a hit moves last |
| RateCache.ExchangeRatesCache.Set | src/exchange-rates/cache/exchange-rates.cache.ts:33-48 | leaves the map as the set step says |
| RateCache.ExchangeRatesCache.Invalidate | src/exchange-rates/cache/exchange-rates.cache.ts:50-52 | removes exactly this key |
| RateCache.ExchangeRatesCache.Clear | src/exchange-rates/cache/exchange-rates.cache.ts:54-56 | removes everything |
| Wallets.RoundIsNearest | src/wallet/wallets.service.ts:46 | rounding gives the nearest cent, ties away from zero: a full characterisation |
| Wallets.RoundNonNegative | src/wallet/wallets.service.ts:46-49 | an adjustment is refused exactly if the exact result is minus half a cent or less |
| Wallets.AppliedEffect | src/wallet/wallets.service.ts:46-52 | an accepted adjustment, of either sign, moves one wallet by its whole cents, keeps all balances non-negative and touches no other wallet |
| Wallets.LegExactly | src/wallet/wallets.service.ts:21-65 | an adjustment goes through exactly if the currency is USD, EUR, GBP or NGN and, for zero, the balance can be read, or else nothing fails and the exact result is above minus half a cent; it writes that one row, within half a cent of the exact result, and a zero writes none |
| Wallets.NormalizeExactly | src/currencies/supported-currencies.ts:8-10 | blanks around a code and the case of its letters do not matter |
| Wallets.CentsSign | src/wallet/wallets.service.ts:46-51 | a debit does not raise a balance exactly for amounts above minus half a cent, a credit does not lower it exactly from there on |
| Wallets.DebitThenRefund | src/wallet/wallets.service.ts:46-51 | debit and refund of one amount, of either sign, restore the balance, or leave one cent more exactly when the amount ends in half a cent |
| Wallets.DriftBound | src/wallet/wallets.service.ts:46-51 | after n accepted adjustments a balance is non-negative and within n half-cents of the exact sum |
| Wallets.WholeCentsAreExact | src/wallet/wallets.service.ts:46-51 | with whole-cent adjustments it is the exact sum |
| Wallets.Database.WithTransaction | src/common/helpers/with-transaction.helper.ts:3-24 | all writes of the callback take effect or none; the connection is given back unless opening the transaction fails |
| Wallets.WalletsService.AdjustBalance | src/wallet/wallets.service.ts:21-65 | the committed table after the call and the cause of each refusal, for every storage failure |
| Wallets.WalletsService.GetBalance | src/wallet/wallets.service.ts:67-95 | the stored balance, zero for an absent wallet; an error exactly for an unsupported currency or a query that fails |
| Transfers.RunKeepsInv | src/transactions/transactions.service.ts:153-176 | in every interleaving no balance is negative and each equals its initial value plus the legs applied |
| Transfers.CompletedMeansBothLegs | src/transactions/transactions.service.ts:159-166 | a row stored COMPLETED had each leg applied exactly once |
| Transfers.Conservation | src/transactions/transactions.service.ts:153-176 | balances of a currency plus what is between the legs equal the initial total, plus one cent per completed half-cent transfer |
| Transfers.WholeCentConservation | src/transactions/transactions.service.ts:153-176 | with whole-cent amounts nothing is created or lost |
| Transfers.StatusWithoutSweeps | src/transactions/transactions.service.ts:153-176 | as long as no cancellation or sweep touches its own row the stored status says exactly how far a transfer got, whatever they do to others |
| Transfers.ReturnedVersusStored | src/transactions/transactions.service.ts:167-176 | then the returned record differs from the stored row exactly when only the last save failed |
| SweptRows.SweptRowIsHonest | src/scheduled-jobs/scheduled-jobs.service.ts:43-66 | in every reachable ledger, a row overwritten by FAILED or CANCELLED never moves money, now or later, if and only if its transfer had settled: ended before the debit; below half a cent; exactly half a cent and stopped between the legs; or before its debit with no cent of the currency in any wallet or between two legs |
| SweptRows.SettledExactly | src/transactions/transactions.service.ts:158-176 | so it is for any transfer with a row: it never moves money in any continuation if and only if it has settled |
| SweptRows.RunGoesOnward | src/transactions/transactions.service.ts:158-176 | a transfer that ended with no leg applied, or between the legs, never goes on, and an applied debit stays applied |
| Transfers.SweepCanHideCompletion | src/scheduled-jobs/scheduled-jobs.service.ts:43-66 | in any ledger any transfer its sender can pay may be read as PENDING, complete with both legs applied, and be stored FAILED or CANCELLED |
| Transfers.HalfCentsAddUp | src/transactions/transactions.service.ts:158-166 | n transfers of half a cent leave the sender as it was and give the receiver n cents |
| Transfers.TransferService.CheckRequest | src/transactions/transactions.service.ts:131-154 | the guards in their order |
| Transfers.TransferService.DebitSender | src/transactions/transactions.service.ts:160 | is the debit step on ledger and wallets |
| Transfers.TransferService.CreditReceiver | src/transactions/transactions.service.ts:161 | is the credit step, committed apart from the debit |
| Transfers.TransferService.SaveCompleted | src/transactions/transactions.service.ts:163-176 | is the confirmation step |
| Transfers.TransferService.Execute | src/transactions/transactions.service.ts:130-187 | an uninterrupted call takes exactly its steps and hands back what they say |
| TransferAnswers.CheckExactly | src/transactions/transactions.service.ts:131-149 | each refusal exactly by its cause, in the order terms, deactivation, amount, parties, currency, read, balance; the check goes on exactly if all hold, and moves nothing |
| TransferAnswers.PastGuards | src/transactions/transactions.service.ts:131-154 | over every run, a transfer past its check was checked with terms accepted, the sender not deactivated, a positive amount, two parties, a known currency and a balance of at least the amount |
| TransferAnswers.WritesExactly | src/transactions/transactions.service.ts:152-176 | what each of the three writes leaves, by whether it goes through; none touches a balance or another transfer |
| TransferAnswers.LegsExactly | src/transactions/transactions.service.ts:160-161 | the debit goes through exactly if nothing fails and the balance then leaves at least minus half a cent, the credit exactly if nothing fails; no other transfer changes |
| TransferAnswers.SweepsExactly | src/scheduled-jobs/scheduled-jobs.service.ts:43-66 | a row is noted exactly if it is PENDING when read, and then overwritten once for each time, whatever it has become |
| TransferAnswers.CallExactly | src/transactions/transactions.service.ts:151-187 | what an uninterrupted call past its guards ends as, stores and answers: the first failure decides |
| TransferAnswers.RefusedCall | src/transactions/transactions.service.ts:131-149 | a refused call hands back its cause and does nothing else |
| Transactions.WithdrawalMoney | src/transactions/transactions.service.ts:378-404 | whatever fails and whatever the sign, the cents are taken at most once, given back at most once, and no other wallet moves; not given back, the balance does not rise if and only if the total is above minus half a cent |
| Transactions.NegativeWithdrawalPays | src/transactions/transactions.service.ts:360-390 | a total of minus half a cent or less passes the balance guard and, with no failure, is COMPLETED and pays its absolute value into the wallet |
| Transactions.WithdrawalStatus | src/transactions/transactions.service.ts:378-404 | in the failures and the two legs alone: when money is taken and given back, when the caller is answered, and when FAILED, COMPLETED or PENDING is stored |
| Transactions.WithdrawalRefusals | src/transactions/transactions.service.ts:348-365 | each refusal exactly by its cause, in the order terms, destination, limit, currency, read, balance |
| Transactions.WithdrawalLegs | src/transactions/transactions.service.ts:378-393 | the debit goes through exactly if the row and its number are written, nothing fails and the balance allows it; the refund then exactly if nothing fails |
| Transactions.SwapMoney | src/transactions/transactions.service.ts:434-474 | whatever the signs, the source is debited and refunded at most once; the target changes by the rounded amount times the credit legs that returned, at most three |
| Transactions.SwapDirection | src/transactions/transactions.service.ts:434-474 | a swap not given back leaves the source no higher if and only if its total is above minus half a cent, and a credited one the target no lower if and only if its amount is at least minus half a cent |
| Transactions.NegativeSwapPaysBoth | src/transactions/transactions.service.ts:415-458 | a source total of minus half a cent or less passes the balance guard and, with no failure and a target amount of at least half a cent, raises both wallets |
| Transactions.SwapCredits | src/transactions/transactions.service.ts:440-469 | the number of credits is one for success plus one per attempt whose write failed after its credit |
| Transactions.SwapHistory | src/transactions/transactions.service.ts:440-474 | FAILED is written at most once, last, after all attempts and after the refund |
| Transactions.SwapWithGoodWrites | src/transactions/transactions.service.ts:440-474 | with good writes COMPLETED means one credit, FAILED none, three counted attempts and a refund |
| Transactions.SwapRefusals | src/transactions/transactions.service.ts:412-421 | each refusal of a swap exactly by its cause |
| Transactions.SwapEnds | src/transactions/transactions.service.ts:434-474 | for a credit no wallet refuses, how a swap ends in terms of what fails: success at the first of three attempts that succeeds, with the failed ones counted; given back exactly if all three are caught and the refund holds |
| Transactions.AttemptCases | src/transactions/transactions.service.ts:441-468 | one attempt: balances, entity, every state written and whether the loop goes on, by what fails |
| Transactions.LostSavesPayThreeTimes | src/transactions/transactions.service.ts:440-474 | three lost saves pay three times and refund the source |
| Transactions.AttemptsNeverFail | src/transactions/transactions.service.ts:459-468 | no attempt writes FAILED |
| Transactions.ReversalEffect | src/transactions/transactions.service.ts:591-601 | what the legs of a reversal do, for all balances, signs and parties |
| Transactions.ReversalUndoesTransfer | src/transactions/transactions.service.ts:591-601 | whenever it happens, a reversal of a transfer undoes what the transfer did, up to a cent for each party for a half-cent amount |
| Transactions.TransactionsService.PayOut | src/transactions/transactions.service.ts:378-404 | balances, row and answer past the guards, for every failure |
| Transactions.TransactionsService.CreateWithdrawal | src/transactions/transactions.service.ts:347-405 | each refusal exactly by its cause; a row or money only when every guard held and the balance was at least the total; success exactly if besides nothing failed |
| Transactions.TransactionsService.TryCredit | src/transactions/transactions.service.ts:441-468 | one turn of the retry loop is one specified attempt |
| Transactions.TransactionsService.RetryCredit | src/transactions/transactions.service.ts:438-469 | the retry loop computes the specified attempts |
| Transactions.TransactionsService.RefundSource | src/transactions/transactions.service.ts:471-474 | the refund and FAILED after the last attempt |
| Transactions.TransactionsService.RunSwap | src/transactions/transactions.service.ts:434-474 | the whole swap past its guards, with every state its row was written in |
| Transactions.TransactionsService.CreateSwap | src/transactions/transactions.service.ts:412-486 | each refusal exactly by its cause, a row or money only when every guard held, then the swap |
| Transactions.TransactionsService.FindPending | src/transactions/transactions.service.ts:562-567 | the read of a cancellation: a row that is PENDING at that moment, and the cause of each refusal |
| Transactions.TransactionsService.SaveCancelled | src/transactions/transactions.service.ts:569-573 | its save, later: CANCELLED whatever the row has become |
| Transactions.TransactionsService.CancelTransaction | src/transactions/transactions.service.ts:561-574 | uninterrupted, only a PENDING row is cancelled, and only its status changes |
| Transactions.TransactionsService.FindUnreversed | src/transactions/transactions.service.ts:584-589 | the read of a reversal: a row not marked at that moment, and the cause of each refusal |
| Transactions.TransactionsService.MoveBack | src/transactions/transactions.service.ts:592-601 | both legs, each committed on its own |
| Transactions.TransactionsService.SaveReversal | src/transactions/transactions.service.ts:603-624 | its save, later: the new row and the mark, or neither |
| Transactions.TransactionsService.ReverseTransaction | src/transactions/transactions.service.ts:580-662 | uninterrupted, a marked row is refused with nothing moved, and the legs stay even when the rows are not written |
| Operations.BalancesAreLegs | src/transactions/transactions.service.ts:153-176 | for transfers, withdrawals, swaps and reversals in every interleaving, no balance is negative and each is its initial value plus the legs that went through |
| Operations.BeginExactly | src/transactions/transactions.service.ts:378-440 | an operation begins at its first leg with nothing moved, and a swap with no attempt made |
| Operations.ReverseExactly | src/transactions/transactions.service.ts:584-601 | a reversal starts exactly for a row that is there and not marked, with the parties and the amount of that row |
| Operations.SaveReversalExactly | src/transactions/transactions.service.ts:603-624 | its save marks the row and tells whether the mark was new, or is lost |
| Conservation.MoneyIsConserved | src/transactions/transactions.service.ts:378-474 | the balances of a currency are the initial total plus what each operation has added, by how far it got |
| Reversals.ReversalsCounted | src/transactions/transactions.service.ts:584-624 | the legs of a row's reversal move once if the row is marked, and once more for every reversal that saved over a mark, lost its rows or has not saved |
| Reversals.SerialReversals | src/transactions/transactions.service.ts:584-624 | reversals that do not overlap move the legs at most once more than the rows lost |
| Reversals.OverlappingReversals | src/transactions/transactions.service.ts:584-601 | n reversals that read the row before any saves take the amount n times from a receiver that can pay it n times, for every n |
| Reversals.UndoneExactly | src/transactions/transactions.service.ts:580-624 | for every kind of row: operation and full reversal together move nothing if and only if the operation got far enough, as listed above |
| Reversals.ReversalPays | src/transactions/transactions.service.ts:591-624 | an uninterrupted reversal marks the row and moves both legs, whatever the operation had moved |
| Reversals.UndebitedTransferCosts | src/transactions/transactions.service.ts:591-601 | reversing a transfer that was never debited takes the amount from a receiver who got nothing |
| Reversals.ReversedWithdrawalGivesNothing | src/transactions/transactions.service.ts:591-624 | a reversed withdrawal is marked, and its wallet gets the half cent at most |
| Sequential.TransferAgrees | src/transactions/transactions.service.ts:158-176 | the step of a transfer is that of the transfer ledger |
| Sequential.WithdrawalAgrees | src/transactions/transactions.service.ts:381-404 | the steps of a withdrawal left alone end as the sequential one does |
| Sequential.SwapAgrees | src/transactions/transactions.service.ts:436-474 | so do those of a swap, for every failure pattern |
| Sequential.ReversalAgrees | src/transactions/transactions.service.ts:592-601 | so do the legs of a reversal |
| ScheduledJobs.MutualExclusion | src/scheduled-jobs/scheduled-jobs.service.ts:34-77 | while runs are shorter than the time to live, wherever workers crash: one worker inside, releases delete only the own lock, a tried transaction lock is free or was left by a crash |
| ScheduledJobs.TriedLockIsFree | src/scheduled-jobs/scheduled-jobs.service.ts:50-62 | without crashes it is free |
| ScheduledJobs.LeftoversExpire | src/scheduled-jobs/scheduled-jobs.service.ts:52-58 | what a crash leaves blocks nobody for longer than the time to live |
| ScheduledJobs.RunKeepsInv | src/scheduled-jobs/scheduled-jobs.service.ts:34-102 | the locks mirror the one worker inside, in every timely run |
| ScheduledJobs.AcquireOnlyWhenEmpty | src/scheduled-jobs/scheduled-jobs.service.ts:94-98 | a timely holder's lock cannot be taken |
| ScheduledJobs.OverrunBreaksExclusion | src/scheduled-jobs/scheduled-jobs.service.ts:94-102 | for every time to live, a run of that length lets a second worker in and deletes its lock |
| ScheduledJobs.TimedOutExactly | src/scheduled-jobs/scheduled-jobs.service.ts:39-48 | the query returns each PENDING row past its timeout once and no other |
| ScheduledJobs.ScheduledJobsService.AcquireJobLock | src/scheduled-jobs/scheduled-jobs.service.ts:94-98 | is the acquire step |
| ScheduledJobs.ScheduledJobsService.ReleaseJobLock | src/scheduled-jobs/scheduled-jobs.service.ts:100-102 | is the release step: an unconditional delete |
| ScheduledJobs.ScheduledJobsService.SweepOne | src/scheduled-jobs/scheduled-jobs.service.ts:50-73 | one turn of the loop is try, save, delete |
| ScheduledJobs.ScheduledJobsService.SweepAll | src/scheduled-jobs/scheduled-jobs.service.ts:50-73 | the loop fails the rows it reached whose lock was free, up to the first save that fails |
| ScheduledJobs.JobLockExactly | src/scheduled-jobs/scheduled-jobs.service.ts:94-102 | the job lock is taken exactly if absent or past its expiry, for the time to live, and deleted on leaving |
| ScheduledJobs.CrashExactly | src/scheduled-jobs/scheduled-jobs.service.ts:50-77 | a worker that dies leaves its lock keys to expire when they would have |
| ScheduledJobs.SweepExactly | src/scheduled-jobs/scheduled-jobs.service.ts:39-73 | what the query, the transaction lock, the save and its release each do, and when the worker leaves |
| ScheduledJobs.ScheduledJobsService.ReconcilePendingTransactions | src/scheduled-jobs/scheduled-jobs.service.ts:34-77 | an uninterrupted run fails a row exactly if the job lock was free, the query held, the row is PENDING past its timeout with a free lock, and its save and that of every such row before it held; nothing else changes |
| Idempotency.ReplayIsDeduplication | src/idempotency/idempotency.interceptor.ts:39-72 | a trace with re-sends ends in the same state and gives the same answers as the trace without them, when first successes are stored and no cleanup comes between a first success and a later request of its key after the expiry |
| Idempotency.Deduplication | src/idempotency/idempotency.guard.ts:57-82 | the same from any table that agrees with the reference on the keys to come |
| Idempotency.HeadAgrees | src/idempotency/idempotency.guard.ts:36-82 | on one event server and reference answer alike; a dropped event changes nothing |
| Idempotency.StoredKeyIsStable | src/idempotency/idempotency.service.ts:46-51 | up to its expiry a stored key survives all traffic and cleanups: a re-send is replayed, a mismatch refused, nothing changes |
| Idempotency.GuardExactly | src/idempotency/idempotency.guard.ts:38-82 | by the length of the header: required exactly if 0, too short exactly from 1 to 15, too long exactly above 255; of the others, refused or replayed by the hash of the row, else let through |
| Idempotency.RequestExactly | src/idempotency/idempotency.interceptor.ts:34-73 | whether the handler runs, what the client gets and what is stored, for every request |
| Idempotency.CleanupExactly | src/idempotency/idempotency.service.ts:46-51 | exactly the rows past their expiry go; their keys run the handler again, the others are replayed |
| Idempotency.FailedStoreRunsTwice | src/idempotency/idempotency.interceptor.ts:63-69 | after a failed store the re-send runs the handler again |
| Idempotency.OverlapRunsTwice | src/idempotency/idempotency.guard.ts:63-82 | two requests guarded before either is stored both run the handler |
| Idempotency.IdempotencyService.CanActivate | src/idempotency/idempotency.guard.ts:33-82 | what the guard answers and writes onto the request |
| Idempotency.IdempotencyService.Store | src/idempotency/idempotency.service.ts:25-44 | writes or overwrites one row, with its expiry |
| Idempotency.IdempotencyService.CleanUp | src/idempotency/idempotency.service.ts:46-51 | removes exactly the expired rows and counts them |
| Idempotency.Server.Serve | src/idempotency/idempotency.interceptor.ts:34-73 | guard and interceptor together are one step of the system |
| SingleFlight.OneFlightPerUser | src/users/users.service.ts:49-69 | in every interleaving: one active flight per user, an entry exactly while one is active (or one threw), cached values come from completed loaders of that user |
| SingleFlight.StepKeepsInv | src/users/users.service.ts:49-73 | every stretch between awaits keeps entries, flights, cache and callers consistent |
| SingleFlight.SettleKeepsEntries | src/users/users.service.ts:62-64 | the entry a flight deletes is its own |
| SingleFlight.WaitersShare | src/users/users.service.ts:54-68 | callers of one user who wait at the same time get the same result |
| SingleFlight.OutcomeIsFinal | src/users/users.service.ts:51-69 | a call ends once |
| SingleFlight.FreshAfterInvalidation | src/users/users.service.ts:71-73 | later calls see only what is loaded after an invalidation if and only if no flight of the user is active then |
| SingleFlight.InvalidationForcesLoad | src/users/users.service.ts:49-73 | with no entry, the next call after an invalidation runs its own loader |
| SingleFlight.CachedCallReturns | src/users/users.service.ts:49-52 | with a value cached for the user an uninterrupted call returns it; flights, entries and cache stay as they are |
| SingleFlight.FlightsAreNeeded | src/users/users.service.ts:51-68 | in every interleaving a flight was begun by a call whose read had found nothing, at a moment without an entry for its user |
| SingleFlight.ReadExactly | src/users/users.service.ts:51 | what the cache read finds, or that it fails the call |
| SingleFlight.ResumeExactly | src/users/users.service.ts:52-68 | return, join or start, by what the read found and by the entry |
| SingleFlight.FlightExactly | src/users/users.service.ts:57-65 | what becomes of a flight and of those who wait for it, at each of its awaits |
| SingleFlight.InvalidateExactly | src/users/users.service.ts:71-73 | only this user's value goes |
| SingleFlight.ThrowWedges | src/users/users.service.ts:57-67 | a loader that throws at once leaves its entry behind; one that does not, does not |
| SingleFlight.WedgedForever | src/users/users.service.ts:57-67 | after that no loader of the user runs again and uncached calls never get a value |
| SingleFlight.UsersService.AfterCacheGet | src/users/users.service.ts:52-68 | return, join or start: the resume step |
| SingleFlight.UsersService.AfterLoader | src/users/users.service.ts:59-64 | the step at which the loader settles |
| SingleFlight.UsersService.CacheSet | src/users/users.service.ts:60-64 | the cache write step |
| SingleFlight.UsersService.AfterCacheSet | src/users/users.service.ts:61-64 | the end of the flight |
| SingleFlight.UsersService.InvalidateWalletBalanceCache | src/users/users.service.ts:71-73 | removes exactly this user's cached value |
| RefreshTokens.FamiliesAreChains | src/tokens/refresh-tokens.service.ts:30-84 | in every interleaving in which no save overlaps, every family is one path of one user whose only possibly unrevoked token is the last |
| RefreshTokens.ChainsExactly | src/tokens/refresh-tokens.service.ts:48-80 | families are chains all along a run if and only if no save of it finds its row replaced since it was read |
| RefreshTokens.StepKeepsChained | src/tokens/refresh-tokens.service.ts:30-84 | a step keeps chains if and only if it is no such save |
| RefreshTokens.OverlappingRotations | src/tokens/refresh-tokens.service.ts:49-77 | two rotations that read one row before either saves leave two tokens of its family, both accepted up to their expiry |
| RefreshTokens.RevocationMissed | src/tokens/refresh-tokens.service.ts:49-84 | after a revocation between read and save every older token of the user is revoked and the new one is accepted |
| RefreshTokens.RotationIsReadAndSave | src/tokens/refresh-tokens.service.ts:48-80 | read and save with nothing in between are the uninterrupted rotation |
| RefreshTokens.LinksAreInverse | src/tokens/refresh-tokens.service.ts:65-77 | parent and successor links are inverse to each other |
| RefreshTokens.OnlyTheLastIsAccepted | src/tokens/refresh-tokens.service.ts:49-59 | a token is accepted exactly if it is the unrevoked, unexpired last of its family; any other changes nothing |
| RefreshTokens.ReuseIsRefused | src/tokens/refresh-tokens.service.ts:52-54 | a rotated or revoked token is refused for ever after, whatever overlaps |
| RefreshTokens.RotationKills | src/tokens/refresh-tokens.service.ts:74-77 | a save kills the token that was read |
| RefreshTokens.IssuedIsAccepted | src/tokens/refresh-tokens.service.ts:34-45 | a token just issued, by a login or by a save, is accepted up to its expiry and refused as expired after it |
| RefreshTokens.AnswerExactly | src/tokens/refresh-tokens.service.ts:49-59 | refused as invalid exactly if unknown or revoked, as expired exactly if unrevoked and past its expiry, else accepted |
| RefreshTokens.CreateExactly | src/tokens/refresh-tokens.service.ts:30-46 | the row of a login |
| RefreshTokens.ReadExactly | src/tokens/refresh-tokens.service.ts:49-59 | a rotation goes on with the row it was given exactly if that is accepted |
| RefreshTokens.SaveExactly | src/tokens/refresh-tokens.service.ts:61-77 | both rows of a rotation, field by field, and no other |
| RefreshTokens.RevokeExactly | src/tokens/refresh-tokens.service.ts:82-84 | every row of the user gets the time, and no other |
| RefreshTokens.Find | src/tokens/refresh-tokens.service.ts:49-51 | the row with a hash, or that there is none |
| RefreshTokens.RefreshTokensService.CreateToken | src/tokens/refresh-tokens.service.ts:30-46 | is the create step |
| RefreshTokens.RefreshTokensService.ReadToken | src/tokens/refresh-tokens.service.ts:49-59 | is the read step, with the cause of each refusal |
| RefreshTokens.RefreshTokensService.SaveTokens | src/tokens/refresh-tokens.service.ts:61-79 | is the save step, both rows together |
| RefreshTokens.RefreshTokensService.RotateToken | src/tokens/refresh-tokens.service.ts:48-80 | uninterrupted: the rotated rows and the new token, or the cause of the refusal |
| RefreshTokens.RefreshTokensService.RevokeUserTokens | src/tokens/refresh-tokens.service.ts:82-84 | revokes every row of the user and no other |
| EndpointRateLimit.WindowBound | src/modules/endpoint-rate-limit/services/endpoint-rate-limit.service.ts:39-62 | every half-open interval of window length admits at most maxRequests calls |
| EndpointRateLimit.FullHistoryDecides | src/modules/endpoint-rate-limit/services/endpoint-rate-limit.service.ts:49-57 | the pruned list decides as the full history would |
| EndpointRateLimit.KeptListIsHistory | src/modules/endpoint-rate-limit/services/endpoint-rate-limit.service.ts:49 | pruned alike, the kept list and the history are the same |
| EndpointRateLimit.KeptListBound | src/modules/endpoint-rate-limit/services/endpoint-rate-limit.service.ts:49-57 | the kept list is ascending and within the limit |
| EndpointRateLimit.RetryAfterIsLeast | src/modules/endpoint-rate-limit/services/endpoint-rate-limit.service.ts:51-55 | retryAfterMs is the least wait that is admitted, and the floor of one never applies |
| EndpointRateLimit.RemainingIsExact | src/modules/endpoint-rate-limit/services/endpoint-rate-limit.service.ts:57-62 | of any n further calls of the same instant exactly remaining are admitted, or all when n is no more |
| EndpointRateLimit.CallExactly | src/modules/endpoint-rate-limit/services/endpoint-rate-limit.service.ts:39-62 | decision and kept list of any call on any list, by the entries less than a window old |
| EndpointRateLimit.EndpointRateLimitService.CheckRateLimit | src/modules/endpoint-rate-limit/services/endpoint-rate-limit.service.ts:27-63 | the decision and the new list of this route, no other route changed |
| PerUserRateLimit.BurstBound | src/modules/rate-limit/services/per-user-rate-limit.service.ts:32-85 | any closed interval of sixty seconds admits at most 2 L - 1 calls |
| PerUserRateLimit.BurstAttainsBound | src/modules/rate-limit/services/per-user-rate-limit.service.ts:32-85 | a run admits exactly that many |
| PerUserRateLimit.BurstIsTimeline | src/modules/rate-limit/services/per-user-rate-limit.service.ts:32-85 | that run is one whose clock never goes back |
| PerUserRateLimit.UsageIsExact | src/modules/rate-limit/services/per-user-rate-limit.service.ts:88-115 | the reported count is the number of calls admitted since the window opened |
| PerUserRateLimit.RemainingIsExact | src/modules/rate-limit/services/per-user-rate-limit.service.ts:72-85 | n further calls of the same instant all pass if and only if n is at most the reported remaining |
| PerUserRateLimit.ResetAtIsOneEarly | src/modules/rate-limit/services/per-user-rate-limit.service.ts:58-85 | a refused caller is admitted exactly after, not at, the reported resetAt |
| PerUserRateLimit.CallExactly | src/modules/rate-limit/services/per-user-rate-limit.service.ts:34-85 | verdict and row of any call: a new window after sixty seconds, admission exactly below the limit, a refusal changes nothing |
| PerUserRateLimit.LimitExactly | src/modules/rate-limit/services/per-user-rate-limit.service.ts:117-126 | 100 for GET, HEAD and OPTIONS in any case, 20 for all others |
| PerUserRateLimit.PerUserRateLimitService.CheckLimit | src/modules/rate-limit/services/per-user-rate-limit.service.ts:27-86 | the verdict and the new row, no other row changed |
| PerUserRateLimit.PerUserRateLimitService.GetUsage | src/modules/rate-limit/services/per-user-rate-limit.service.ts:88-115 | the running count, or zero after the window, against the read limit |
| TransactionLimits.TotalsAreHistory | src/transactions/transaction-limit.service.ts:23-53 | in every interleaving each total is the sum of the accepted amounts of its key and within its limit |
| TransactionLimits.MonthIsSumOfDays | src/transactions/transaction-limit.service.ts:32-53 | a month's total is the sum of its days' totals when each call reads one instant |
| TransactionLimits.StraddlingCallSplits | src/transactions/transaction-limit.service.ts:32-35 | two readings around midnight break that |
| TransactionLimits.WhateverCompletes | src/transactions/transactions.service.ts:360-361 | whichever of a day's accepted calls complete, they sum to no more than the day's total, if and only if none of them has a negative amount |
| TransactionLimits.NegativeIsAccepted | src/transactions/transaction-limit.service.ts:26-53 | an amount that is not positive passes every check and lowers the total |
| TransactionLimits.NegativeAmountBreaksLimit | src/transactions/transaction-limit.service.ts:26-53 | for all limits, a run in which one and a half times the daily limit completes |
| TransactionLimits.KeysIdentify | src/transactions/transaction-limit.service.ts:34-35 | no two users or days share a key, whatever characters a user id holds |
| TransactionLimits.CheckExactly | src/transactions/transaction-limit.service.ts:26-53 | each refusal exactly by its cause, the limit itself allowed, and both totals after it |
| TransactionLimits.StepExactly | src/transactions/transaction-limit.service.ts:23-64 | conversion and check as two steps: what each leaves |
| TransactionLimits.TransactionLimitService.CheckAndCommit | src/transactions/transaction-limit.service.ts:26-53 | both totals grow by the amount or neither does |
| TransactionLimits.TransactionLimitService.CheckAmount | src/transactions/transaction-limit.service.ts:23-64 | conversion, then check and commit |
| KycTiers.RunKeepsHistory | src/modules/kyc-tiers/services/kyc-tiers.service.ts:25-128 | in any interleaving in which nothing is charged to a user: the approved requests are the history of the tier, but for one tier that may be due, and a pending request is the last |
| KycTiers.PendingIsCurrent | src/modules/kyc-tiers/services/kyc-tiers.service.ts:31-66 | then at most one request of the user is pending and no tier is due meanwhile; it records the user's tier, asks for more, and is the one the status call shows |
| KycTiers.ApprovalsBound | src/modules/kyc-tiers/services/kyc-tiers.service.ts:25-128 | in every interleaving of the steps of requests and reviews, a user's approved requests are at most the levels gained, plus the tiers due, plus one for each tier never written and three for each late request and each decision saved over another; late: since its first read another request of the user was written or the tier changed, or a tier of the user is due |
| KycTiers.AtMostThree | src/modules/kyc-tiers/services/kyc-tiers.service.ts:9-14 | so at most three, when nothing is charged and no tier is due |
| KycTiers.ApprovalRaises | src/modules/kyc-tiers/services/kyc-tiers.service.ts:103-108 | then the write of an approved tier strictly raises its user's level and touches no other |
| KycTiers.LateRequestsCostThreeEach | src/modules/kyc-tiers/services/kyc-tiers.service.ts:25-111 | the bound is reached: for every k a run with k late requests, each request reviewed once and every tier written, gives 3 k + 1 approvals for one level |
| KycTiers.LostTiersHaveNoBound | src/modules/kyc-tiers/services/kyc-tiers.service.ts:101-108 | for every n a run in which n tiers are never written has n approvals and no level gained |
| KycTiers.OverlappingRequests | src/modules/kyc-tiers/services/kyc-tiers.service.ts:26-58 | in any state, two requests of one user past their checks before either is stored are both pending; approved in turn they count two, and the level ends as the second asked |
| KycTiers.SecondApprovalLowers | src/modules/kyc-tiers/services/kyc-tiers.service.ts:26-111 | ADVANCED and BASIC so overlapped: the second approval lowers the level from 2 to 1 |
| KycTiers.RejectedYetRaised | src/modules/kyc-tiers/services/kyc-tiers.service.ts:88-128 | in any state, an approval and a rejection that both find a request pending can leave it REJECTED with its tier given |
| KycAnswers.RequestExactly | src/modules/kyc-tiers/services/kyc-tiers.service.ts:26-48 | each refusal of a request exactly by its cause: user, tier name, rank, pending request |
| KycAnswers.RequestSteps | src/modules/kyc-tiers/services/kyc-tiers.service.ts:25-58 | what the two reads and the write of a request each do |
| KycAnswers.ReviewSteps | src/modules/kyc-tiers/services/kyc-tiers.service.ts:88-128 | each refusal of a review exactly by its cause, and what its save and the write of the tier do |
| KycTiers.KycTiersService.CheckUser | src/modules/kyc-tiers/services/kyc-tiers.service.ts:26-41 | the first read and its checks in order |
| KycTiers.KycTiersService.CheckPending | src/modules/kyc-tiers/services/kyc-tiers.service.ts:43-48 | the second read: whether a request of the user is pending |
| KycTiers.KycTiersService.StoreUpgrade | src/modules/kyc-tiers/services/kyc-tiers.service.ts:50-58 | the write of the row, whatever has come between |
| KycTiers.KycTiersService.RequestUpgrade | src/modules/kyc-tiers/services/kyc-tiers.service.ts:25-59 | uninterrupted: the cause of a refusal, or the new row |
| KycTiers.KycTiersService.FindForReview | src/modules/kyc-tiers/services/kyc-tiers.service.ts:89-95 | the read of a review, with the cause of each refusal |
| KycTiers.KycTiersService.SaveDecision | src/modules/kyc-tiers/services/kyc-tiers.service.ts:97-101 | the save of its decision, whatever the request has become |
| KycTiers.KycTiersService.WriteTier | src/modules/kyc-tiers/services/kyc-tiers.service.ts:103-108 | the write of the user's tier, or its loss |
| KycTiers.KycTiersService.ApproveRequest | src/modules/kyc-tiers/services/kyc-tiers.service.ts:88-111 | uninterrupted: the cause of a refusal, or the approved request and the user's tier |
| KycTiers.KycTiersService.RejectRequest | src/modules/kyc-tiers/services/kyc-tiers.service.ts:113-128 | uninterrupted: the cause of a refusal, or the rejected request |
| Ohlc.OhlcExactly | src/exchange-rates/rate-snapshot.util.ts:44-62 | the result is the one ascending chart with a candle for every hour that has a point, each with the open, close, high and low of its hour; nothing else meets that |
| Ohlc.BucketsPartition | src/exchange-rates/rate-snapshot.util.ts:45-51 | the buckets, in order, are the sorted points: none lost, none used twice |
| Ohlc.FinalSortIsIdentity | src/exchange-rates/rate-snapshot.util.ts:52-61 | the final sort changes nothing |
| Ohlc.HourSplit | src/exchange-rates/rate-snapshot.util.ts:44-62 | splitting the points at any hour boundary splits the chart there |
| Ohlc.OrderDoesNotMatter | src/exchange-rates/rate-snapshot.util.ts:46-48 | with distinct times the chart depends on the set of points only |
| Ohlc.TiesShowOrder | src/exchange-rates/rate-snapshot.util.ts:46-48 | two rates of one instant show their input order |
| Ohlc.PeriodCutsOneCandle | src/exchange-rates/rate-snapshot.util.ts:34-41 | a trailing period changes at most its first candle |
| Ohlc.PeriodExactly | src/exchange-rates/rate-snapshot.util.ts:21-41 | the four periods keep exactly the points no older than an hour, a day, seven or thirty days, in their order |
| Ohlc.HourOf | src/exchange-rates/rate-snapshot.util.ts:29-31 | the start of the hour that holds a time, negative times included |
| Ohlc.Aggregate | src/exchange-rates/rate-snapshot.util.ts:44-62 | the loop computes that chart |
| Statements.StatementsChain | src/statements/statements.service.ts:57-74 | a statement opens with what the one ending just before it closed with |
| Statements.ConsecutiveStatementsJoin | src/statements/statements.service.ts:128-166 | cutting a period cuts its statement: lines follow each other and the balances telescope |
| Statements.ClosingIsNet | src/statements/statements.service.ts:63-74 | the closing balance is the net of the history to the end of the period, for all periods, reversed ones included |
| Statements.OpeningIsNet | src/statements/statements.service.ts:168-220 | the opening balance is the net of everything before the period |
| Statements.LinesAreNet | src/statements/statements.service.ts:110-166 | the merged and sorted lines sum to the net of the period |
| Statements.LinesAreExactly | src/statements/statements.service.ts:128-166 | a statement holds exactly the lines its rows give in the period, with sign, text and reference, ascending by date |
| Statements.LinesOfInstant | src/statements/statements.service.ts:133-166 | of one instant, first the lines of the transactions and then those of the trades, in the order of the tables, none missing and none twice |
| Statements.RowLines | src/statements/statements.service.ts:133-160 | the lines of one row: text, sign, amount and reference, the side sold first |
| Statements.OrderOfRowsIsIrrelevant | src/statements/statements.service.ts:115-126 | the balances do not depend on the order of the rows |
| Statements.SidesOfTransaction | src/statements/statements.service.ts:187-193 | what one transaction does to a balance: sent money is subtracted first, so one with oneself counts as sent |
| Statements.OtherSpellingIsEmpty | src/statements/statements.service.ts:83 | a code not in capitals gives an empty statement headed by the code in capitals |
| Statements.ReadyStatements | src/statements/statements.service.ts:38-55 | exactly periods above 31 days are queued; any other is the statement, under the code in capitals, and chains |
| Csv.CsvRoundTrip | src/modules/export/services/export.service.ts:62-77 | reading the export returns the header and for each object what it has under each column, or nothing, if and only if there is a column and no name needs escaping |
| Csv.ReadCell | src/modules/export/services/export.service.ts:67-72 | a printed cell is read back, whatever it holds |
| Csv.ReadLines | src/modules/export/services/export.service.ts:64-76 | so is every table of printed cells |
| Csv.SameEscape | src/admin/exports/admin-exports.processor.ts:18-21 | the two escaping functions are the same function |
| Csv.CellExactly | src/modules/export/services/export.service.ts:67-72 | a cell without comma, quote and line feed is printed as it is; any other between quotes, one character longer for each quote in it |
| Csv.SpecialHeaderIsLost | src/modules/export/services/export.service.ts:63 | a header with a name that needs escaping is never read back |
| Csv.AdminRoundTrip | src/admin/exports/admin-exports.processor.ts:41-80 | the admin file, less its last line feed, reads back as columns and rows |
| Csv.WriteBatch | src/admin/exports/admin-exports.processor.ts:57-74 | one line for each row of a batch |
| Csv.Batch | src/admin/exports/admin-exports.processor.ts:52-55 | successive batches cover the result without gap or overlap |
| Csv.WriteBatches | src/admin/exports/admin-exports.processor.ts:43-80 | the loop prints every row once, in order, and counts them |
| Csv.Handle | src/admin/exports/admin-exports.processor.ts:41-80 | the whole file |

## Left out

- Controllers, DTO validation, entities, guards' wiring, migrations: no property of their own.
- Exchange-rate providers, Stellar, mail, push, PDF, queues, storage: an answer from them is a parameter.
- Floating point: amounts are reals counted in cents, so the binary rounding of JavaScript numbers before `toFixed` is not captured; the tie at half a cent is.
- `Transactions`: fees are taken as given; `createDeposit` is not modelled (src/transactions/transactions.service.ts:313 reads `tx.id` inside the initialiser of `tx`); amounts have at most eight decimals of a unit, so the `toFixed(8)` of a reversal changes nothing.
- `Operations`: an operation starts with its row saved and its guards passed, so every interleaving of real calls is among those proved about; statuses are in `Transfers` and `Transactions`.
- `Transfers`: the value of the receipt number, and a commit whose outcome is unknown to the caller.
- Wallets.Database.WithTransaction: does not model a rollback or a release that itself fails.
- Text: upper-casing and trimming are those of ASCII; times are integers, so ISO text is used only where keys are cut from it, and years outside 0000 to 9999 are not modelled.
- `Csv`: a lone carriage return is not escaped by the code, so the reader breaks records at LF only; String(value) of a cell is its text; rows of the admin query with equal times are assumed to keep one order between pages.
- `Idempotency`: the hash is an arbitrary function of the request; an hour is an hour also when daylight saving changes.
- `RefreshTokens`: the hash is an arbitrary function and new random values are new, stated as a condition on the events.
- `ScheduledJobs`: the query returns rows in the order of the table; a lock key that cannot be deleted because Redis fails; the purge of one-time codes and reset tokens.
- `PerUserRateLimit`: overlapping calls of one user, where two reads of one row can precede both writes.
- `KycTiers`: `documents` and the reviewer's name and time; removal of users; a request's id is its row number.
- `SingleFlight`: the cache is one entry per user whose expiry is an event; the values of the loaders are arbitrary.
- `Statements`: the user's details, the time of generation and the PDF; dates that do not parse.
- FX trades, login lockout, archival, reconciliation totals and reports: their outcome is not decided by their own code, or is a plain sum.
