# VeriAgent Pay: protocol models and proofs

VeriAgent Pay's backend keeps money-bearing state in Postgres rows, Redis keys and an on-chain escrow, and several
of its services are small protocols over that shared state. This project models those protocols in Dafny and
proves what they keep over every run.

Two kinds of model stand side by side.

* **Interleaving models.** `LinkProtocol`, `DepositIndexer`, `ReferralLadder`, `PublicEnvelopes`, `ClaimWorkers` and
  `BotQueue` are state machines: a `State`, one `Event` per atomic database, Redis or chain operation, `Apply` for one
  event and `Run` for any sequence of events. An event that the state does not allow changes nothing, so a theorem
  about `Run` speaks about every interleaving of any number of callers, each of which may stop between two operations.
  Clocks, random draws, relayer outcomes and the times at which things fail are event parameters.
* **Service classes.** The services' own methods, with their loops and the rows they rewrite as fields, are verified
  against the same specification functions.

Modules:

| module | what it models |
|---|---|
| `LinkProtocol`, `LinkSweeper` | Solana payment links: creation, claim, cancellation, refund, and the expiry sweep |
| `DepositLogs`, `DepositIndexer`, `DepositListener` | replicas of the deposit indexer over one cursor and one Deposit table |
| `ReferralLadder` | referral milestones and the points ledger |
| `PublicEnvelopes`, `RedEnvelopes` | envelope claims: optimistic concurrency, and share arithmetic |
| `SpendLimiter` | the Redis spend counter and the session gate in front of it |
| `ClaimWorkers`, `ClaimScheduler`, `BotQueue` | the claim retry queue and the bot job scheduler |
| `UtcCalendar`, `StreakChains`, `Streaks` | interaction streaks over UTC calendar days |
| `CredentialVault` | envelope encryption with key rotation, as a refinement of a plain map |
| `KeyOrder`, `Utf8`, `FormUrlEncoded`, `SignedLinks` | signed escalation links |
| `Radix`, `BigIntBuffer` | bigint and buffer conversions, stored P-256 coordinates |
| `Prelude` | shared vocabulary |

What the proofs bring out about the code, beyond the laws that hold:

* The list `sweepExpired` returns as refunded also holds links it skipped or only repaired
  (`backend/src/escrow/solana-payment-links.service.ts:301-309`); `SweepExpired` states exactly which links are in it.
* A funding transaction can land although the relayer call throws, because the spending record is written after the
  confirmation (`backend/src/relayer/solana-relayer.service.ts:238-275`). The row then reads FAILED over a funded
  escrow (`FailedRowOverFundedEscrow`); a call that stops after the confirmation leaves a PENDING one
  (`PendingRowOverFundedEscrow`). No later run of the service moves such funds (`AbandonedEscrowNeverMoves`), and
  `StrandedExactly` says over every run when they arise: a funding landed and its call then threw, or stopped before it
  marked the row ACTIVE.
* The indexer's cursor may move backwards (`CursorMayMoveBack`), exactly at a save of a block below it
  (`LowersExactly`), which needs another replica's save since the cursor was read (`BackwardNeedsAnotherSave`) or a
  negative span setting (`LoneReplica`); coverage holds in all these cases.
* The loser of a public-envelope race keeps a claim row and is shut out for good (`LoserExists`, `LoserNeverPaid`). A
  claim row is a payment exactly when nobody else was paid between the claim's read and its commit
  (`PaidExactlyWhenAlone`, `LosersExactly`).
* A fixed window lets twice the daily limit through within one `ttl`, and no more (`TwiceTheLimit`,
  `RollingWindowBound`), and only across an expiry of the key (`OverLimitSpansExpiry`).
* With stale batches a claim handler can run a fourth time (`StaleBatchRunsFourTimes`), because the conditional update
  does not compare the retry count. `ExecutionsAccounted` gives the exact number of runs in every interleaving, a failed
  take keeps the count right if and only if the row still had the fetched count (`FailedTakeForgets`), and with such takes
  the bound of three holds for any number of workers (`ThreeAttempts`).
* A claim is stuck in PROCESSING if and only if a worker stopped in its handler (`OrphanedExactly`), and then forever
  (`OrphanNeverRetried`). A claim kind without a registered executor is
  completed by its first run (`EndsByItsHandler`).
* `markDepositRetainedD7` itself does not look at the wallet: called directly it pays a referral without one
  (`DirectD7SkipsWallet`). The service never does that, since the nightly cron is its only caller
  (`backend/src/referral/referral-milestone.cron.ts:43`) and selects rows with a wallet (`RetainedNeedsWallet`).
  `RetainedWithoutWalletExactly` says for every driver when the ladder gets out of order.
* A red-envelope claim that settles on chain while its row write fails is not in the derived balance, so the service lets
  another claimer have the same amount again (`UnrecordedClaimRepeats`). Later claims keep the settled amounts within the
  total, however they go, if and only if every claim settled so far has its row (`SafeExactly`). Whether the contract
  accepts a claim is an input.
* A completed public envelope need not have paid its total, since its last share may be 60% of what was left
  (`CompletedWithRemainder`); it has exactly when that share took all (`CompletionExactly`). One that is paid out with
  claims left is never completed (`ExhaustedNeverCompletes`).
* An equal split completes exactly when `n - 1` rounded shares leave something; otherwise it is paid out and stays
  ACTIVE (`EqualSplit`).
* A store in legacy mode over an encrypted row is not read back (`DowngradeLosesStore`), and neither is a legacy store
  with an empty coordinate (`ReadBack` in `CredentialVault`).
* `toBufferBE` accepts no number at width zero, not even zero (`FitsExactly`).

## Model

| member | source | states |
|---|---|---|
| `LinkProtocol.ApplyKeeps` | backend/src/escrow/solana-payment-links.service.ts:74-363 | every atomic step of create, claim, cancel, refund and redeem, every crash and every direct chain transaction keeps the invariant tying row, escrow and all calls in flight |
| `LinkProtocol.RowMirrorsChain` | backend/src/escrow/solana-payment-links.service.ts:74-271 | in every interleaving a CLAIMED, CANCELLED or EXPIRED row has exactly that on-chain status, an ACTIVE row was funded, and the escrow has the row's expiry and pays out at most once, to the party the row names |
| `LinkProtocol.TerminalForever` | backend/src/escrow/solana-payment-links.service.ts:136-355 | a row that reached a terminal status is never changed by any later run |
| `LinkProtocol.SettleKeeps` | contracts/anchor/programs/veriagent_pay/src/payment_links.rs:236-398 | the program settles only an active escrow, so no call holds an outdated settled view |
| `LinkProtocol.AbandonedEscrowNeverMoves` | backend/src/escrow/solana-payment-links.service.ts:90-115 | once no creating call is left behind a PENDING or FAILED row, no run of the service changes the row or the escrow |
| `LinkProtocol.FailedRowOverFundedEscrow` | backend/src/escrow/solana-payment-links.service.ts:100-106 | such a row over a funded, active escrow is reachable |
| `LinkProtocol.PendingRowOverFundedEscrow` | backend/src/escrow/solana-payment-links.service.ts:90-115 | a PENDING row over a funded, active escrow that no call will activate is reachable as well |
| `LinkProtocol.FailedOverFundsExactly` | backend/src/escrow/solana-payment-links.service.ts:90-115 | a creation that runs to its end leaves a FAILED row over funds if and only if the funding landed although the relayer call threw, and an ACTIVE row if and only if it was confirmed |
| `LinkProtocol.StrandedStep` | backend/src/escrow/solana-payment-links.service.ts:90-115 | a step strands funds if and only if it writes FAILED over an account or stops the creating call after a landed funding |
| `LinkProtocol.StrandedExactly` | backend/src/escrow/solana-payment-links.service.ts:74-115 | over every run funds are stranded behind a row nobody will activate if and only if a funding landed and its call then threw or stopped before marking the row ACTIVE |
| `LinkProtocol.LoneRefundRepairs` | backend/src/escrow/solana-payment-links.service.ts:331-355 | one undisturbed refund of an expired ACTIVE row ends with the row mirroring the escrow, refunding only an active one |
| `LinkProtocol.LoneCreation` | backend/src/escrow/solana-payment-links.service.ts:74-115 | a creation running alone ends with an ACTIVE row over an active escrow with the row's expiry |
| `LinkProtocol.LoneClaim` | backend/src/escrow/solana-payment-links.service.ts:129-198 | a claim running alone: up to the row's expiry it pays the recipient and writes CLAIMED if and only if the escrow is active and not expired on chain; after it, it never claims but refunds the sender and writes EXPIRED, or mirrors a settled escrow |
| `LinkProtocol.LoneCancel` | backend/src/escrow/solana-payment-links.service.ts:228-275 | a cancellation running alone pays the sender and writes CANCELLED if and only if the escrow is active |
| `LinkProtocol.HasStart` | backend/src/escrow/solana-payment-links.service.ts:129-355 | over every run, a call that claims, cancels or refunds was started on an ACTIVE row by an unexpired claim, by a cancellation, or by a sweep or claim after the expiry |
| `LinkProtocol.PayoutFollowsStart` | backend/src/escrow/solana-payment-links.service.ts:129-355 | over every run, a call's payout goes to the recipient if and only if the call started as a claim not after the row's expiry, and to the sender if it started as a cancellation, a sweep or an expired claim, each within the program's time limits |
| `LinkProtocol.LastWriteMirrors` | backend/src/escrow/solana-payment-links.service.ts:136-355 | in every interleaving a claim, cancellation or refund that gets to its last write leaves the row terminal and naming the chain status, for good |
| `LinkSweeper.SolanaPaymentLinks.RefundExpiredLink` | backend/src/escrow/solana-payment-links.service.ts:331-355 | which status the row gets, when the chain is touched, and exactly when it throws |
| `LinkSweeper.SolanaPaymentLinks.SweepExpired` | backend/src/escrow/solana-payment-links.service.ts:291-310 | every selected row gets its swept status and no other row changes, only active expired escrows are refunded, the returned list is exactly the links that did not throw, and an error-free sweep leaves no expired ACTIVE link |
| `LinkSweeper.SweptStatusStable` | backend/src/escrow/solana-payment-links.service.ts:301-309 | refunds made earlier in a sweep change neither the status due to a later row nor whether it throws |
| `LinkSweeper.ErrorFreeSweep` | backend/src/escrow/solana-payment-links.service.ts:291-363 | after an error-free sweep every selected row is terminal and names its escrow's status, including rows whose chain action finished before a crash |
| `DepositLogs.FetchTransferLogs` | backend/src/deposits/deposit-listener.service.ts:307-326 | whenever its loop ends, the batched queries return exactly the matching logs of the span, each as often as the chain holds it |
| `DepositLogs.BatchLoopEnds` | backend/src/deposits/deposit-listener.service.ts:314-323 | the batching loop ends if and only if the batch setting is positive or there is no address |
| `DepositLogs.BatchesAddUp` | backend/src/deposits/deposit-listener.service.ts:314-323 | splitting the recipients into disjoint batches neither loses nor repeats a log |
| `DepositLogs.GetLogsMembers` | backend/src/deposits/deposit-listener.service.ts:318-322 | a query returns a log if and only if it matches span, topic and recipient |
| `DepositIndexer.ApplyCoverage` | backend/src/deposits/deposit-listener.service.ts:214-326 | every step of every replica, including late cursor saves and crashes, keeps coverage of the blocks up to the cursor and up to every value a replica holds |
| `DepositIndexer.EveryBlockScanned` | backend/src/deposits/deposit-listener.service.ts:214-326 | over every run and every span and batch setting, each block after the start up to the cursor lies in a scan that handed over every log addressed to its wallet snapshot, and each of those that is a deposit and did not throw has a row |
| `DepositIndexer.NeverPastTheHead` | backend/src/deposits/deposit-listener.service.ts:214-290 | over every run indexing starts at the configured block or a head some replica read, every scan and every pending save runs exactly to such a head or for the configured number of blocks if that is less, and the cursor is the start or lies at or before such a head |
| `DepositIndexer.ScanSpan` | backend/src/deposits/deposit-listener.service.ts:214-228 | with its cursor at the head a replica scans nothing, otherwise the blocks from behind the cursor to the smaller of the head and cursor plus span |
| `DepositIndexer.ApplyRecording` | backend/src/deposits/deposit-listener.service.ts:331-404 | every step keeps the unique key, the announcement discipline and the accounting of handed logs |
| `DepositIndexer.RecordedAtMostOnce` | backend/src/deposits/deposit-listener.service.ts:331-404 | over every run each (txHash, logIndex) has at most one row and at most one announcement, announcements belong to recognized rows, and no internal or protocol sender is recorded |
| `DepositIndexer.RecordedRows` | backend/src/deposits/deposit-listener.service.ts:331-365 | over every run each row's log is a Transfer on the chain with three topics and a nonzero amount, from outside the wallet snapshot and the protocol, credited to the recipient's owner |
| `DepositIndexer.OutsideTransfersRecorded` | backend/src/deposits/deposit-listener.service.ts:214-404 | over every run each block after the start up to the cursor was scanned with a wallet snapshot such that every nonzero outside transfer of the block to one of its wallets has a row, unless its processing threw |
| `DepositIndexer.RecognizedAreAnnounced` | backend/src/deposits/deposit-listener.service.ts:383-404 | over every run, once nobody is announcing, each recognized row was announced unless its processing threw or a stop cut its announcement off |
| `DepositIndexer.CursorMayMoveBack` | backend/src/deposits/deposit-listener.service.ts:284-290 | the unconditional upsert lets a slower replica lower the cursor |
| `DepositIndexer.LowersExactly` | backend/src/deposits/deposit-listener.service.ts:284-290 | a step lowers the cursor if and only if it is a save of a block below the stored one |
| `DepositIndexer.BackwardNeedsAnotherSave` | backend/src/deposits/deposit-listener.service.ts:214-290 | over every run, with a span setting that is not negative, a save lowers the cursor only if another replica saved since this one read it |
| `DepositIndexer.LoneReplica` | backend/src/deposits/deposit-listener.service.ts:214-290 | a replica that is the only one to save lowers the cursor if and only if the span setting is negative |
| `DepositListener.DepositListenerService.ProcessTransferLog` | backend/src/deposits/deposit-listener.service.ts:331-404 | a row is appended exactly for a creditable log whose key is new, for the recipient's owner and recognized exactly when its token is known, and then announced |
| `DepositListener.DepositListenerService.ProcessLogs` | backend/src/deposits/deposit-listener.service.ts:231-239 | afterwards every due log has a row, every new row is the row of a due log, the count is the number of new rows, and a throwing log is skipped |
| `DepositListener.DepositListenerService.ScanOnce` | backend/src/deposits/deposit-listener.service.ts:214-249 | the scanned span, the new cursor, a row for every due deposit of the span, no other new row, and exactly the announcements of the new recognized rows |
| `ReferralLadder.ApplyKeeps` | backend/src/referral/referral.service.ts:238-390 | every statement of every milestone call keeps points, ledger and locks consistent |
| `ReferralLadder.PointsAccounted` | backend/src/referral/referral.service.ts:238-390 | in every interleaving a row's points are 25, 25 and 50 for its milestones and equal what the ledger paid plus what is still owed, each milestone has at most one referrer row, and a first send implies a wallet |
| `ReferralLadder.LedgerMatchesPoints` | backend/src/referral/referral.service.ts:244-270 | over every run a referrer's ledger total plus what is still owed to them equals the points of their referrals, so ledger and points agree if and only if nothing is owed to them |
| `ReferralLadder.WelcomeBonus` | backend/src/referral/referral.service.ts:244-270 | over every run a welcome bonus is 100 points for the referee, and a referral has exactly as many as paid wallet milestones, at most one |
| `ReferralLadder.MilestonesAreAskedFor` | backend/src/referral/referral.service.ts:238-390 | over every run a first send was reached only for a send of at least five dollars, a wallet only by a wallet call or such a send, and a retained deposit only by a stage-4 call, each for that referee |
| `ReferralLadder.RetainedNeedsWallet` | backend/src/referral/referral-milestone.cron.ts:29-45 | with the cron as the only driver of stage 4, a retained deposit implies a created wallet |
| `ReferralLadder.DirectD7SkipsWallet` | backend/src/referral/referral.service.ts:368-390 | a direct call, which the service itself never makes, reaches a retained deposit without a wallet |
| `ReferralLadder.D7NeedsWallet` | backend/src/referral/referral.service.ts:368-390 | a won stage-4 update leaves a retained deposit with its wallet if and only if the wallet existed when the update ran |
| `ReferralLadder.RetainedWithoutWalletExactly` | backend/src/referral/referral.service.ts:368-390 | over every run, whoever calls stage 4, a retained deposit ever lacked its wallet if and only if some won update met a row without one |
| `ReferralLadder.ReferralService.MarkWalletCreated` | backend/src/referral/referral.service.ts:238-270 | pays the milestone once, with the welcome bonus, or changes nothing |
| `ReferralLadder.ReferralService.MarkFirstSend` | backend/src/referral/referral.service.ts:310-339 | pays for a qualifying send once, the wallet milestone first, or changes nothing |
| `ReferralLadder.ReferralService.MarkDepositRetainedD7` | backend/src/referral/referral.service.ts:368-390 | pays the milestone once or changes nothing |
| `ReferralLadder.ReferralService.AwardRetainedDepositMilestones` | backend/src/referral/referral-milestone.cron.ts:26-57 | exactly the candidates with a retained deposit are paid, in order, and the count is the number of new ledger rows |
| `PublicEnvelopes.ClaimAmount` | backend/src/growth/growth.service.ts:76-78 | whatever the draw, a share is at least one cent and at most the balance |
| `PublicEnvelopes.ShareIsFair` | backend/src/growth/growth.service.ts:76-78 | for every balance, claim count and draw the share, times the claim count, meets the balance times 0.6 + 0.8 · draw within half a cent per claim when that point lies between 50 cents and the balance, and otherwise is 50 cents (or a smaller balance) or the whole balance |
| `PublicEnvelopes.ShareRange` | backend/src/growth/growth.service.ts:76-78 | for a draw in [0, 1) that is 60% to 140% of the average, up to half a cent and the two limits |
| `PublicEnvelopes.PaidShares` | backend/src/growth/growth.service.ts:63-116 | over every run payment number j has its own commit, and is the share by that commit's draw of what the total has left after the j payments before it, among the claims then left |
| `PublicEnvelopes.Conservation` | backend/src/growth/growth.service.ts:63-116 | in every interleaving successful amounts plus balance equal the total, successes plus remaining claims equal the maximum, the balance is never negative, nobody is paid twice, and completion means all claims were paid |
| `PublicEnvelopes.ApplyKeeps` | backend/src/growth/growth.service.ts:63-98 | every step keeps conservation, and a snapshot with the current version carries the current balance |
| `PublicEnvelopes.LoserNeverPaid` | backend/src/growth/growth.service.ts:69-102 | a claim row without a payment shuts its claimer out in every later run |
| `PublicEnvelopes.LoserExists` | backend/src/growth/growth.service.ts:86-102 | such a row is reachable |
| `PublicEnvelopes.PaidExactlyWhenFresh` | backend/src/growth/growth.service.ts:80-102 | a commit for a claimer without a row always writes the row, and pays if and only if the payments so far are those its snapshot had seen |
| `PublicEnvelopes.PaidExactlyWhenAlone` | backend/src/growth/growth.service.ts:63-116 | a whole claim, with any run of others between its statements, is paid if and only if nobody was paid between its read and its commit |
| `PublicEnvelopes.LosersExactly` | backend/src/growth/growth.service.ts:63-116 | over every run a claim row lacks a payment if and only if its commit lost a race |
| `PublicEnvelopes.CompletionExactly` | backend/src/growth/growth.service.ts:76-98 | over every run a completed envelope paid its whole total if and only if its last payment, with its balance and draw, took all that was left |
| `PublicEnvelopes.LastShareTakesAll` | backend/src/growth/growth.service.ts:76-78 | the share of a last claim is the whole balance if and only if the balance is at most 50 cents or the draw misses it by at most half a cent |
| `PublicEnvelopes.CompletedWithRemainder` | backend/src/growth/growth.service.ts:76-98 | an envelope for one claim is completed by it, with a remainder exactly when the share does not take all |
| `PublicEnvelopes.ExhaustedNeverCompletes` | backend/src/growth/growth.service.ts:63-98 | an envelope paid out with claims left pays nothing more and is never completed |
| `PublicEnvelopes.PublicEnvelope.CreatePublicEnvelope` | backend/src/growth/growth.service.ts:22-37 | refuses exactly the amounts that are not positive; a missing count means 100 and counts are kept within 1 to 1000 |
| `PublicEnvelopes.PublicEnvelope.ClaimPublicEnvelope` | backend/src/growth/growth.service.ts:63-116 | exactly when each error is returned, an undisturbed admitted claim is paid the fair share by its draw, and conservation is kept |
| `RedEnvelopes.ClaimKeeps` | backend/src/envelopes/envelopes.service.ts:564-771 | one claim, refused or not, with any of its writes failing, keeps the claim rows within the total and completion equal to full payment |
| `RedEnvelopes.PaidWithinTotal` | backend/src/envelopes/envelopes.service.ts:608-624 | the same over every sequence of claims |
| `RedEnvelopes.StoredIsDerived` | backend/src/envelopes/envelopes.service.ts:979-990 | when every claim's writes succeed, the stored balance is the total minus the claim rows |
| `RedEnvelopes.RandomShare` | backend/src/envelopes/envelopes.service.ts:610-615 | a random share, times the claims left, meets the balance times 0.5 + draw within half a cent per claim, hence 50% to 150% of the average, and never exceeds the balance |
| `RedEnvelopes.CustomIsForItsRecipient` | backend/src/envelopes/envelopes.service.ts:573-607 | a claimable custom envelope refuses a caller if and only if they are not admitted as its recipient, changing nothing, and a settled claim of the recipient takes all that is left |
| `RedEnvelopes.CustomSettlements` | backend/src/envelopes/envelopes.service.ts:573-607 | in every run of a custom envelope only admitted claims settle anything, and each settles all that is left |
| `RedEnvelopes.SettledAccounted` | backend/src/envelopes/envelopes.service.ts:757-783 | over every sequence of claims each settled cent is in a claim row or belongs to a claim whose row write failed |
| `RedEnvelopes.SettledWithinTotal` | backend/src/envelopes/envelopes.service.ts:564-783 | when every settled claim has its row the settled amounts are the claim rows, within the total; once nothing is left to claim, they are within the total only then |
| `RedEnvelopes.SafeExactly` | backend/src/envelopes/envelopes.service.ts:564-783 | every continuation by claims that write their rows keeps the settled amounts within the total if and only if every claim settled so far has its row |
| `RedEnvelopes.UnrecordedClaimRepeats` | backend/src/envelopes/envelopes.service.ts:757-783 | after the only claim of an open envelope settled and lost its row write, a second claimer settles the whole total again |
| `RedEnvelopes.EqualSplit` | backend/src/envelopes/envelopes.service.ts:608-624 | n claims complete an equal split if and only if n - 1 rounded shares leave something; then all but the last are equal and the last takes the rest |
| `RedEnvelopes.LastShareBound` | backend/src/envelopes/envelopes.service.ts:616-620 | the last claim differs from total/n by at most (n - 1)/2 cents |
| `RedEnvelopes.EarlyExhaustion` | backend/src/envelopes/envelopes.service.ts:616-624 | the exhausted case occurs: two cents for four people are paid out by two claims, and after four attempts the envelope is still ACTIVE with claims left |
| `RedEnvelopes.RedEnvelope.ComputeShare` | backend/src/envelopes/envelopes.service.ts:608-620 | the share lies between zero and the derived balance, a custom or last claim takes all of it, and a random share meets its point between 50% and 150% of the average |
| `RedEnvelopes.RedEnvelope.Record` | backend/src/envelopes/envelopes.service.ts:622-771 | what the two writes leave, also when the second or both fail, and that they keep the envelope sound for every amount within the derived balance |
| `RedEnvelopes.RedEnvelope.ClaimEnvelope` | backend/src/envelopes/envelopes.service.ts:564-771 | each refusal and its case, what a custom and a random claim are paid, and the new row as specified |
| `SpendLimiter.LifetimeWithinLimit` | backend/src/core/redis.service.ts:155-209 | within one key lifetime seed and allowed spends never exceed the limit, and the stored total is exactly their sum |
| `SpendLimiter.RollingWindowBound` | backend/src/core/redis.service.ts:184-191 | any half-open interval of one ttl holds allowed spends of at most twice the limit, because updates keep the expiry |
| `SpendLimiter.TwiceTheLimit` | backend/src/core/redis.service.ts:184-191 | for every limit and every ttl of at least three milliseconds that bound is reached |
| `SpendLimiter.OneLifetimeWindow` | backend/src/core/redis.service.ts:161-192 | a window of any length whose spends share one key lifetime holds at most the limit, less the lifetime's seed |
| `SpendLimiter.OverLimitSpansExpiry` | backend/src/core/redis.service.ts:184-191 | a window of one ttl above the limit holds spends of two consecutive key lifetimes |
| `SpendLimiter.ExecInv` | backend/src/core/redis.service.ts:161-192 | every sequence of script calls keeps lifetimes in order and two lifetimes apart by more than a ttl |
| `SpendLimiter.HotState.GetSessionKey` | backend/src/core/hot-state.service.ts:169-177 | returns exactly a usable session and drops any other from the cache |
| `SpendLimiter.HotState.AtomicCheckAndIncrementSpend` | backend/src/core/redis.service.ts:155-209 | an allowed spend leaves exactly the larger total, live, on its key, keeps the expiry of a key that has time left and otherwise expires after one ttl; a refused one changes nothing |
| `SpendLimiter.HotState.ValidateAndRecordSpending` | backend/src/core/hot-state.service.ts:189-223 | exactly when a payment is denied and why, and that only an allowed one is recorded, on its session's key alone |
| `ClaimWorkers.MutualExclusion` | backend/src/relayer/claim-retry.service.ts:100-178 | with any number of workers holding stale batches, two handler runs of one claim never overlap and the row is PROCESSING meanwhile |
| `ClaimWorkers.FinalForever` | backend/src/relayer/claim-retry.service.ts:100-178 | COMPLETED and FAILED are never left and their handler never runs again |
| `ClaimWorkers.OrphanNeverRetried` | backend/src/relayer/claim-retry.service.ts:81-116 | a claim whose worker stopped in the handler is never taken again |
| `ClaimWorkers.OrphanArises` | backend/src/relayer/claim-retry.service.ts:100-178 | a step leaves a claim in PROCESSING without a worker if and only if it stops the worker running its handler |
| `ClaimWorkers.OrphanedExactly` | backend/src/relayer/claim-retry.service.ts:81-178 | over every run a claim is stuck in PROCESSING if and only if some worker stopped while running its handler |
| `ClaimWorkers.OrphanExists` | backend/src/relayer/claim-retry.service.ts:100-116 | such a claim is reachable |
| `ClaimWorkers.EndedExactly` | backend/src/relayer/claim-retry.service.ts:100-176 | over every run a claim is COMPLETED if and only if some run of its handler succeeded, and FAILED if and only if a run failed whose batch had counted two retries or more |
| `ClaimWorkers.StaleBatchRunsFourTimes` | backend/src/relayer/claim-retry.service.ts:118-176 | stale retry counts allow a fourth run |
| `ClaimWorkers.ExecutionsAccounted` | backend/src/relayer/claim-retry.service.ts:100-178 | over every run with any stale batches a handler ran once for each stored retry, once if running, interrupted or successful, and once for each failure a stale count forgot |
| `ClaimWorkers.FailedAfterThree` | backend/src/relayer/claim-retry.service.ts:118-176 | a FAILED claim ran exactly three times if and only if its failing runs forgot nothing in sum |
| `ClaimWorkers.FailedTakeForgets` | backend/src/relayer/claim-retry.service.ts:100-176 | a take whose handler fails keeps the account of runs if and only if the row still had the fetched retry count |
| `ClaimWorkers.ThreeAttempts` | backend/src/relayer/claim-retry.service.ts:78-178 | when every take finds the fetched retry count, any number of workers with any crashes run a handler at most three times, with retries equal to its failures |
| `ClaimScheduler.RoundAt` | backend/src/relayer/claim-retry.service.ts:81-178 | a round attempts exactly the active claims with fewer than twenty active ones before them |
| `ClaimScheduler.ThreeRoundsClearABatch` | backend/src/relayer/claim-retry.service.ts:78-178 | three funded rounds move everybody behind the first twenty up by twenty |
| `ClaimScheduler.SettledInTime` | backend/src/relayer/claim-retry.service.ts:78-178 | a claim with k active claims before it is settled within 3(⌊k/20⌋ + 1) funded rounds, whatever arrives meanwhile |
| `ClaimScheduler.BoundedRetries` | backend/src/relayer/claim-retry.service.ts:78-178 | from an empty queue, it ends COMPLETED or FAILED in that time, after at most three runs, with retries equal to its failed runs |
| `ClaimScheduler.EndsByItsHandler` | backend/src/relayer/claim-retry.service.ts:66-176 | a claim recorded after any past is settled in time, COMPLETED after exactly one run if its handler never throws, which covers kinds without an executor, and FAILED after exactly three runs if it always throws |
| `ClaimScheduler.RunsAccounted` | backend/src/relayer/claim-retry.service.ts:118-176 | runs, failures, retries and status agree after every sequence of rounds and arrivals |
| `ClaimScheduler.ClaimRetryService.FetchPending` | backend/src/relayer/claim-retry.service.ts:81-88 | the batch is exactly the first twenty active claims, in order |
| `ClaimScheduler.ClaimRetryService.ProcessPendingClaims` | backend/src/relayer/claim-retry.service.ts:66-180 | the loop over the batch is one round; nothing happens when the balance is low |
| `BotQueue.FifoWithTenWorkers` | backend/src/platform/bot-queue.service.ts:22-60 | in every interleaving at most ten workers are active, a waiting job means exactly ten, and launched jobs followed by waiting ones are the enqueued ones in order |
| `BotQueue.LaunchedInTurn` | backend/src/platform/bot-queue.service.ts:35-60 | the job at queue position k has launched once k + 1 handlers ended |
| `BotQueue.BotQueueService.ProcessQueue` | backend/src/platform/bot-queue.service.ts:35-41 | no job is lost, launched jobs stay launched, and no job waits beside a free worker if at most one could start |
| `BotQueue.BotQueueService.EnqueueJob` | backend/src/platform/bot-queue.service.ts:22-33 | the job is appended, the invariant kept and no job lost |
| `BotQueue.BotQueueService.FinishJob` | backend/src/platform/bot-queue.service.ts:47-59 | an ended handler, successful or not, frees its worker for the next job |
| `UtcCalendar.DateUtcInverts` | backend/src/growth/interaction-streak.utils.ts:19-23 | a day taken apart into year, month and date is put together again by `Date.UTC` if and only if it lies outside the years 0 to 99 |
| `UtcCalendar.MonthIndexMonotone` | backend/src/growth/interaction-streak.utils.ts:25-31 | a later day never lies in an earlier month |
| `UtcCalendar.LeapRule` | backend/src/growth/interaction-streak.utils.ts:19-23 | a year of the calendar has 366 days if and only if it is a Gregorian leap year |
| `StreakChains.LastPassSuffices` | backend/src/growth/interaction-streak.utils.ts:25-31 | comparing the month of the last pass alone decides whether any pass was used this month |
| `StreakChains.AdvanceMirrors` | backend/src/growth/interaction-streak.utils.ts:71-89 | the stored figures follow the full history of chains and passes |
| `StreakChains.HistoryIsForced` | backend/src/growth/interaction-streak.utils.ts:71-89 | over every run a chain breaks only after a gap of more than two days, or of two when the month's pass was used before; a pass is used exactly for a forgiven day; the last visit is the latest day |
| `StreakChains.ChainSpan` | backend/src/growth/interaction-streak.utils.ts:78-80 | a chain's calendar span is its length plus its grace passes |
| `StreakChains.LongestIsMax` | backend/src/growth/interaction-streak.utils.ts:84 | the longest streak is the maximum over all chains |
| `Streaks.RecordIsAdvance` | backend/src/growth/interaction-streak.utils.ts:71-89 | the update computed from clock times is the rule on calendar days and months |
| `Streaks.StreakMeaning` | backend/src/growth/growth.service.ts:198-229 | after every sequence of interactions the chains are runs of days one apart, or two with a pass, that break only when they must; the current chain's span is the current streak plus its passes, passes lie in different months, the longest streak is the maximum over all chains, and the last day is the latest one |
| `Streaks.GrowthService.RecordInteraction` | backend/src/growth/growth.service.ts:198-229 | a qualifying interaction updates only its user's row; any other changes nothing |
| `CredentialVault.LoadKeks` | backend/src/identity/credential-vault.service.ts:46-72 | loading succeeds if and only if the current key is given and no given key has a wrong length; then exactly the given keys up to the current version are loaded, so the current key is there |
| `CredentialVault.UnwrapUndoesWrap` | backend/src/identity/credential-vault.service.ts:520-545 | splitting the colon-separated text recovers the wrapped key |
| `CredentialVault.FindsOwnRow` | backend/src/identity/credential-vault.service.ts:460-469 | the query by hash or id finds a credential's own row and no other |
| `CredentialVault.LookupIsAbstract` | backend/src/identity/credential-vault.service.ts:130-165 | a lookup returns the map's row id and whole payload: user, both coordinates and wallet |
| `CredentialVault.StoreRefines` | backend/src/identity/credential-vault.service.ts:78-128 | a store changes the map at its credential only: to the whole stored payload when encrypted; in legacy mode to the row's user and the stored coordinates without a wallet, or to nothing with an empty coordinate |
| `CredentialVault.MigrateRefines` | backend/src/identity/credential-vault.service.ts:239-281 | a migration changes a readable legacy entry only, keeps its id, user and coordinates, and gives it the wallet that was found |
| `CredentialVault.RotateRefines` | backend/src/identity/credential-vault.service.ts:180-208 | a rotation succeeds exactly for a stale encrypted row, brings it to the current version and changes nothing readable: not the user, coordinates or wallet |
| `CredentialVault.ReloadRefines` | backend/src/identity/credential-vault.service.ts:46-72 | a restart with a version that did not go down and all used keys loaded changes nothing readable |
| `CredentialVault.LookupReturnsLastStore` | backend/src/identity/credential-vault.service.ts:78-281 | a credential stored with a key version is read back whole, user, coordinates and wallet, after every sequence of migrations, rotations, whole-table rotations, key reloads and stores of other credentials |
| `CredentialVault.LookupIsPlain` | backend/src/identity/credential-vault.service.ts:78-281 | after every sequence of stores, migrations, rotations, whole-table rotations and key reloads a lookup is that of the plain map after the same operations |
| `CredentialVault.LookupReturnsLegacyStore` | backend/src/identity/credential-vault.service.ts:81-99 | a credential stored in legacy mode is read back afterwards if and only if neither coordinate is empty: with the user its row had or else the stored one, the stored coordinates, and no wallet or the one a later migration found |
| `CredentialVault.DowngradeLosesStore` | backend/src/identity/credential-vault.service.ts:81-99 | back at version zero, a store over an existing row is read back like any legacy store if and only if that row is not encrypted; otherwise nothing is readable until the keys return, and then the old payload is |
| `CredentialVault.RotateAllReachesCurrent` | backend/src/identity/credential-vault.service.ts:214-233 | with all used keys loaded every stale row is rotated, every encrypted row ends at the current version, and nothing readable changes |
| `CredentialVault.CredentialVaultService.RotateRecord` | backend/src/identity/credential-vault.service.ts:180-208 | succeeds exactly for a stale encrypted row, brings it to the current version and keeps every map the vault stands for |
| `CredentialVault.CredentialVaultService.RotateAll` | backend/src/identity/credential-vault.service.ts:214-233 | rotated plus failed is the number of stale records, each attempted once, in order |
| `CredentialVault.CredentialVaultService.FindByLookupOrCredentialId` | backend/src/identity/credential-vault.service.ts:460-469 | returns a matching row if there is one |
| `CredentialVault.CredentialVaultService.LookupAndDecrypt` | backend/src/identity/credential-vault.service.ts:130-165 | returns the map's row id, user, coordinates and wallet, or nothing when the map has no payload |
| `CredentialVault.CredentialVaultService.StoreCredential` | backend/src/identity/credential-vault.service.ts:78-128 | the map changes at the credential only, to what the store makes readable; the id is the existing row's or the new one, and an encrypted row keeps no plaintext |
| `CredentialVault.CredentialVaultService.MigrateLegacyRecord` | backend/src/identity/credential-vault.service.ts:239-281 | migrates exactly a readable legacy row, clears its plaintext, and keeps its user and coordinates with the wallet that was found |
| `KeyOrder.IncreasingUnique` | backend/src/platform/payment-escalation.service.ts:118-125 | a set of keys has one sorted listing |
| `Utf8.DecodeInverts` | backend/src/platform/payment-escalation.service.ts:119-124 | UTF-8 decoding inverts encoding on every string |
| `FormUrlEncoded.ParseInverts` | backend/src/platform/payment-escalation.service.ts:119-124 | parsing inverts form-urlencoded serializing on every list of pairs |
| `SignedLinks.Canonicalize` | backend/src/platform/payment-escalation.service.ts:118-125 | filtering, sorting and appending the keys in any order gives the canonical form |
| `SignedLinks.CanonicalInjective` | backend/src/platform/payment-escalation.service.ts:16-125 | two records have the same canonical form if and only if they agree on every signed field |
| `SignedLinks.BuildLink` | backend/src/platform/payment-escalation.service.ts:85-104 | the assignments build the specified link, whose own query asks for exactly the given payment and carries the hash of the signed text |
| `SignedLinks.BuiltLinkAsks` | backend/src/platform/payment-escalation.service.ts:75-104 | the query of a built link has the amount and token given, the recipient and note exactly when given and not empty, the count exactly when given, an expiry within the last second of fifteen minutes, the flag, the signature of the link's signed text, and no other key |
| `SignedLinks.Verify` | backend/src/platform/payment-escalation.service.ts:144-177 | the loop and the checks compute the specified verdict, including every failure reason |
| `SignedLinks.RoundTrip` | backend/src/platform/payment-escalation.service.ts:75-177 | any query carrying a built link's signed entries, in any order and with any unsigned extras, is valid at exactly the times up to expiry, and malformed when the token is empty |
| `SignedLinks.BuiltLinkVerifies` | backend/src/platform/payment-escalation.service.ts:104-177 | the link's own query part verifies if and only if it has not expired |
| `SignedLinks.AcceptedIsUntampered` | backend/src/platform/payment-escalation.service.ts:144-177 | a query accepted under a built link's signature has that link's signed fields, or exhibits a collision of the keyed hash |
| `SignedLinks.TamperedIsRefused` | backend/src/platform/payment-escalation.service.ts:144-169 | a complete query under a built link's signature that differs in a signed field is refused as badly signed, or exhibits a collision of the keyed hash |
| `Radix.DigitCount` | packages/bigint-buffer/index.js:25-26 | a number prints with at most k digits if and only if it is below the k-th power of the base |
| `BigIntBuffer.FitsExactly` | packages/bigint-buffer/index.js:22-28 | `toBufferBE` succeeds if and only if the width is at least one and 0 ≤ n < 256^width |
| `BigIntBuffer.ReadsBack` | packages/bigint-buffer/index.js:11-28 | a written number has the asked width and reads back |
| `BigIntBuffer.WritesBack` | packages/bigint-buffer/index.js:11-28 | a buffer of at least one byte, read and written back, is itself |
| `BigIntBuffer.LittleEndianLaws` | packages/bigint-buffer/index.js:17-32 | the same three laws in little-endian order |
| `BigIntBuffer.CoordinateRoundTrip` | backend/src/identity/credential-vault.service.ts:450-456 | storing throws exactly for an empty coordinate; a stored one comes back if and only if its value is in range, as 32 bytes of that value, byte-identical exactly when it had 32 bytes |

## Left out

- Nest modules, controllers, guards, notifications, bots, command parsing and the web client: plumbing without a hard invariant.
- HMAC, SHA-256, AES-GCM and WebAuthn verification: parameters. `CryptoOk` assumes that opening undoes sealing and that the lookup hash does not collide; `HexMac` assumes 64 hex characters. Nothing is assumed about forgeries.
- Floating point: amounts are whole cents or other integer units, draws and averages are reals, and `toFixed(2)` rounds a half up.
- Native SOL payment links, the EVM branch of the escrow service, and the calldata of the envelope contract.
- The checks `claim` makes on recipient, commitment, amount and rate before it submits: in the link protocol they are a call that stops early.
- Writers of short-link rows outside the modelled service.
- LinkSweeper.SolanaPaymentLinks.SweepExpired: runs without interference; interference is the subject of `LinkProtocol`, which models one link.
- DepositIndexer.EveryBlockScanned: a log whose processing throws is handed over but may have no row, as the code skips it. Settings that are not integers are not modelled.
- DepositLogs.FetchTransferLogs: is stated for calls that return; `BatchLoopEnds` says exactly which settings make the loop run forever.
- DepositListener.DepositListenerService.ScanOnce: likewise for scans that return.
- Token formatting, block timestamps and the text of announcements.
- processReferral: registration is one event; the anti-sybil checks and code allocation are not modelled.
- hasRetainedDeposit: the set of users with a retained deposit is an input of the sweep.
- PublicEnvelopes.Conservation: is about successful responses; claim rows of lost races are not payments.
- RedEnvelopes.PaidWithinTotal: claims one after the other, not concurrently, and no CANCELLED envelope; it is about claim rows, and `SettledWithinTotal` about the chain.
- SpendLimiter.RollingWindowBound: for a fixed limit and non-negative amounts, starting from any seeded total within the limit; the startup cache warming and the parsing of its JSON value are not modelled.
- ClaimScheduler.BoundedRetries: the time bound is for one scheduler that does not stop; `ThreeAttempts` gives the bound on runs for several.
- Streaks.StreakMeaning: concurrent interactions of one user are not modelled, and times in the years 0 to 99 are excluded, because `Date.UTC` reads those years as 1900 to 1999.
- CredentialVault.LookupIsPlain: concurrent stores, signature counters and the COSE key migration are not modelled.
- `Number` is a parameter of the link verifier, assumed only to read printed whole seconds exactly; `BigInt` on text that is not decimal digits; lone surrogates; how many replacement characters malformed UTF-8 gives.
- SignedLinks.RoundTrip: amounts and counts appear as their printed text, which is never empty.
- Managed vaults, airdrops, badges, leaderboards, analytics and admin queries: they would only add easy members.
