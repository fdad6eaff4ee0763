# Verified models of the ledger, its durability protocol and the exact research pipeline

This project models, in Dafny, three parts of the repository and proves what each promises.

**The accounting ledger** (`crates/accounting-ledger/src/lib.rs`). A double-entry state machine with ten
commands keeps five views of the same money: signed balances per account and asset, reservations, cost
positions, pair locks and the idempotency table. `LedgerSpec` is the transition function with the source's
branches, error order and i128 and u64 bounds; `AccountingLedger` is the object whose methods update the
fields in place and compute exactly that function. Arithmetic the source leaves unchecked, and its
`.expect` calls, are an explicit `Trap` result. `LedgerInvariant` says what it means for the views to agree;
`LedgerTransitions`, `LedgerTotals`, `LedgerSafety`, `LedgerHistory`, `LedgerIdentity`, `LedgerViews`,
`CostChain`, `TradeFlow`, `PairFlow` and `PairEffects` prove that agreement holds on every run, that the
run-time re-check can then only overflow, that no guard or trap is reachable, and the conservation laws.
`LedgerSuccess` and `LedgerAnswers` say exactly when each command succeeds, from the balances, reservations,
positions and locks alone, and how it is answered otherwise.

**Journal-first durability** (`durable.rs` of both crates). `Journaling` states the preflight, append, sync,
install protocol and strict replay over any deterministic core; `CrashSafety` proves what recovery returns
after arbitrary storage failures, crashes and restarts; `LedgerDurability` shows that the ledger is such a
core and `LedgerFaults` gives the inputs at which recovery disappoints; `DurableLedger` is the owning object
over a journal file and a ledger object. `AuthReplay` and `DurableAuth` do the same for the authentication
crate, whose replay tolerates one final halting failure, and compare the two rules; `AuthCore` is how that
crate's core answers a command around its own transition. `CheckpointCodec` is the 88-byte checkpoint record.

**The exact parts of the research pipeline** (`scripts/`). `DepthWalk`, `Compaction`, `Sampling`,
`PathLabels`, `Simulation` and `PrefixFreeze` model the depth walk with directed rounding, conservative
bucket compaction, grid sampling with horizon labels, first-exit labels, the one-position simulator and the
three ways of freezing a growing JSONL file; `SampledFrames` says what the sampled frames are in terms of the
rows of the tape alone.

## How the source is represented

- Integers are unbounded; i128 and u64 limits are written out (`Fits`, `CheckedAdd`, `U64_MAX`). 32-byte ids
  are their big-endian values, so map order is kept. Text is its UTF-8 bytes, ordered bytewise.
- A digest is idealised as a value that is equal exactly for equal inputs (`CommandDigest`, `StateDigest`).
  JSON encoding is a payload that either decodes to its command or does not. The checksum of the checkpoint
  codec is an arbitrary function with 32-byte results.
- A journal file is a sequence of records of which a prefix is known to be durable. Whether an append fails
  (with the record lost or kept) and whether a sync fails are parameters. A crash keeps the durable prefix and
  any part of the rest. A restart reads what survived into the new owner's state but makes none of it durable:
  neither recovery (`crates/accounting-ledger/src/durable.rs:150-189`) nor opening the owner (`:47-57`) or the
  writer (`crates/market-recorder/src/lib.rs:141-165`) syncs a file that is not empty.
- Prices and sizes that the importer reads as decimals are exact reals, and so are model scores.

## What the proofs found

- A restart goes live with records that are not durable, and a second crash can lose them: recovery then
  returns an earlier ledger than the one that was live. `LossReached` is such a run of two events. Recovery
  replays the live history, or one command more, exactly when no installed record is lost
  (`RecoveryExactly`); the ledger's state shows a loss exactly when something lost was not a duplicate
  (`LossExactly`); and one successful command or sync after opening rules it out until the next crash
  (`SyncSecures`). Acknowledged commands are never lost.
- The ledger journals an idempotency conflict, and its own recovery then rejects that journal for ever
  (`ConflictIsFatal`; `ConflictReached` gives two funding commands that do it). The comment on `apply` in
  `durable.rs` says rejected commands are not journaled; the model follows the code, in which this one
  rejected command is. `LedgerRecovery` has the exact condition.
- Recovery refuses a journal whose last sequence is the largest u64, because it advances its expected counter
  first, although the writer can produce that record (`LastSequenceReached`, one command submitted again and
  again without a fault). Every recovery result carries the exact condition `|journal| <= MAX_SEQUENCE`.
- The authentication owner journals commands submitted after its core has halted, and its recovery then
  rejects the journal for ever (`SubmitAfterHaltIsFatal`). The core halts on every failure of an encodable
  command while the journal's sequence lasts (`CoreHalts`); it does not halt on a command that cannot be
  encoded, which is never journaled, nor on the exhaustion of its u64 counter, which takes a full journal
  (`FailuresThatDoNotHalt`). So an authentication journal is recoverable exactly when its sequence lasts and
  nothing was submitted after the halt (`AuthGuardExactly`).
- A recovered ledger has never met a conflict, so it is never halted (`LedgerRecovery`).

## Model

| member | source | states |
|---|---|---|
| AccountingLedgerModel.AccountingLedger.Apply | crates/accounting-ledger/src/lib.rs:438-464 | The object's next state and answer are exactly those of the transition function, with the candidate installed only after the re-check |
| AccountingLedgerModel.AccountingLedger.ApplyFresh | crates/accounting-ledger/src/lib.rs:643-726 | In-place dispatch of the ten commands gives the same result or the same first error as the transition function |
| AccountingLedgerModel.AccountingLedger.VerifyInvariants | crates/accounting-ledger/src/lib.rs:1206-1301 | The re-check with its early exits answers as the specification of all its checks does |
| AccountingLedgerModel.PostLoop | crates/accounting-ledger/src/lib.rs:1167-1204 | The posting loop, which stops at the first refusal, equals posting as a fold |
| DoubleEntry.PostEffect | crates/accounting-ledger/src/lib.rs:1167-1204 | A posted transaction changes the sum of any group of accounts by exactly its own entries in that group |
| DoubleEntry.PostErrors | crates/accounting-ledger/src/lib.rs:1167-1204 | A balanced transaction of distinct compatible entries fails only for range or, when some non-negative account is not covered, for a negative balance |
| LedgerInvariant.FollowKeepsAgree | crates/accounting-ledger/src/lib.rs:1206-1301 | If reservations, positions and locks move by what a posted transaction moved in their accounts, all views still agree |
| LedgerSafety.PerformFollows | crates/accounting-ledger/src/lib.rs:728-1104 | Every one of the ten commands moves its views by exactly its transaction |
| LedgerTotals.RunningTotals | crates/accounting-ledger/src/lib.rs:1206-1232 | The checked totals in key order succeed exactly when the per-kind partial sums fit i128, fail only as overflow, and compute the per-asset sums |
| LedgerTotals.VerifyExactly | crates/accounting-ledger/src/lib.rs:1206-1323 | On agreeing books the re-check passes if and only if the partial sums and the P&L fit i128; its only error is overflow |
| LedgerHistory.ReachedInv | crates/accounting-ledger/src/lib.rs:438-464 | After any command sequence the views agree, the re-check passes, and the command count is the size of the idempotency table |
| LedgerHistory.GuardsNeverFire | crates/accounting-ledger/src/lib.rs:643-1301 | No command of any run is answered with an unbalanced, posting-count, account-asset, conservation, reservation or inventory failure, nor a trap |
| LedgerSafety.PerformErrors | crates/accounting-ledger/src/lib.rs:728-1204 | A valid command on agreeing books reports a negative balance only for a reservation request or a pair lock, and never an internal failure, the residual-cost guard included |
| LedgerHistory.ReleaseNeverStuck | crates/accounting-ledger/src/lib.rs:768-803 | In every reachable unhalted state a fresh release of an active reservation is applied, u64 exhaustion of the counter aside |
| LedgerAnswers.SettlementNeverStuck | crates/accounting-ledger/src/lib.rs:805-1104 | A fresh confirmation within its reservation, or a merge of an active lock, is applied exactly when its amounts, the resulting totals and P&L and the u64 counter fit, and overflows exactly otherwise; it is never refused for balance or inventory |
| LedgerSuccess.PerformExactly | crates/accounting-ledger/src/lib.rs:728-1104 | On agreeing books whose totals fit, each of the ten actions, if valid, succeeds if and only if the reservation, lock or balance it draws on covers it and its amounts fit: every account it credits, the position it adds to and the product of the cost it allocates |
| LedgerSuccess.AllocateExactly | crates/accounting-ledger/src/lib.rs:1369-1388 | A cost is allocated exactly when the position covers the quantity and the product fits i128, and is then the whole cost for the whole position or else the share rounded up |
| LedgerSuccess.LockRefusals | crates/accounting-ledger/src/lib.rs:895-964 | How a pair lock that is not granted is refused, exactly: a used id, a position too small, a product out of range, or tokens that are held but not available |
| LedgerAnswers.AnswersExactly | crates/accounting-ledger/src/lib.rs:438-464 | A fresh valid command on a reachable state is applied if and only if it is covered, its amounts fit, the result's totals and P&L fit and the counter is below the largest u64; when it is covered and not applied, the answer is overflow |
| LedgerAnswers.PnlExactly | crates/accounting-ledger/src/lib.rs:1303-1323 | On agreeing books the P&L is computed if and only if each step of the realized P&L and each partial sum of the locked one, in id order, fits i128 |
| LedgerAnswers.DrawRefusals | crates/accounting-ledger/src/lib.rs:1106-1146 | Which refusal a missing, finished, mismatched or too small reservation brings to each action that draws on one |
| LedgerAnswers.ValidExactly | crates/accounting-ledger/src/lib.rs:1443-1534 | A command is valid if and only if its time is not negative and its texts, pair and amounts are within the stated bounds, zero fees and zero payouts included |
| LedgerAnswers.RepeatIsDuplicate | crates/accounting-ledger/src/lib.rs:443-451 | An applied command submitted again, at once or after any run that has not halted, is answered as a duplicate and changes nothing |
| LedgerHistory.ReserveAnswers | crates/accounting-ledger/src/lib.rs:728-766 | A fresh reservation is refused for balance exactly when the available amount is too small; a covered one is applied, u64 exhaustion of the counter aside, and never fails for range |
| LedgerHistory.HistoryEquivalence | crates/accounting-ledger/src/lib.rs:438-464 | Halt flag aside, the state is the fold of the applied commands, each of which applies again there; their number is the counter and the size of the table |
| LedgerHistory.RefusalLeavesNoTrace | crates/accounting-ledger/src/lib.rs:438-464 | A refused command leaves the state as it was, except that a conflict sets the halt flag, and its id stays free |
| LedgerHistory.HaltedExactly | crates/accounting-ledger/src/lib.rs:438-451 | The ledger is halted if and only if some valid command reused an accepted id with other content |
| LedgerHistory.HaltAbsorbs | crates/accounting-ledger/src/lib.rs:438-441 | After a halt no command sequence changes anything |
| LedgerIdentity.AccountingIdentity | crates/accounting-ledger/src/lib.rs:500-535 | On every run, cash available, cash reserved, inventory cost and locked cost add up to the funding applied plus realized P&L |
| LedgerIdentity.FeesAreCharged | crates/accounting-ledger/src/lib.rs:1303-1323 | On every run, the fees reported are those of the applied buys and sales, each counted once |
| LedgerIdentity.TokenIdentity | crates/accounting-ledger/src/lib.rs:643-726 | On every run, each token's available, reserved and locked amounts add up to minus its external balance |
| LedgerIdentity.ReservationConservation | crates/accounting-ledger/src/lib.rs:728-803 | On every run a reservation's original amount is what remains plus what confirmations took plus what a release returned; it is active exactly while something remains |
| LedgerIdentity.ReservationPersists | crates/accounting-ledger/src/lib.rs:1122-1146 | A reservation keeps its asset and original amount for ever and never changes again once released or consumed |
| LedgerIdentity.ReservedOnce | crates/accounting-ledger/src/lib.rs:728-744 | A reservation id is never granted twice in a run |
| CostChain.ChainBounds | crates/accounting-ledger/src/lib.rs:1148-1165 | Over any chain of k disposals the remaining cost is non-negative, its average never rises, it is short of its share by under k micros, and nothing is created or lost |
| CostChain.DisposeBounds | crates/accounting-ledger/src/lib.rs:1369-1388 | One ceiling allocation keeps the average from rising and is off by under a micro |
| TradeFlow.BuyEffect | crates/accounting-ledger/src/lib.rs:805-850 | A buy spends consideration and fee from total cash, gains the tokens, carries the consideration as their cost and loses only the fee |
| TradeFlow.SellEffect | crates/accounting-ledger/src/lib.rs:854-893 | A sale gains the proceeds net of the fee, gives up the tokens and realizes proceeds less fee and the allocated cost; other positions are untouched |
| TradeFlow.RedeemEffect | crates/accounting-ledger/src/lib.rs:1069-1104 | A redemption gains the payout, gives up the tokens and realizes the payout less the allocated cost |
| TradeFlow.BuyReserveSell | crates/accounting-ledger/src/lib.rs:805-893 | Buying any quantity from an empty position, reserving it and selling it all moves cash and realized P&L by the same proceeds less outlay and both fees |
| PairEffects.SplitEffect | crates/accounting-ledger/src/lib.rs:1019-1067 | A split turns cash into as many tokens of each outcome, their costs being half the cash each with the odd micro on the second; it realizes nothing and changes no lock |
| PairEffects.LockEffect | crates/accounting-ledger/src/lib.rs:895-964 | A lock takes the quantity and its allocated cost out of both positions into one new record with the quantity as payout; cash, total tokens and realized P&L stay |
| PairEffects.MergeEffect | crates/accounting-ledger/src/lib.rs:966-1017 | A merge pays the lock out, gives up its tokens, realizes payout less cost and changes only that lock's status |
| PairFlow.PairActionsPreserve | crates/accounting-ledger/src/lib.rs:895-1067 | A split, lock or merge preserves total cash plus total up tokens, and total cash plus total down tokens |
| PairFlow.MergeKeepsProfit | crates/accounting-ledger/src/lib.rs:966-1017 | A merge moves the lock's profit from locked to realized P&L and leaves their sum unchanged |
| PairFlow.SplitLockMerge | crates/accounting-ledger/src/lib.rs:895-1067 | Splitting, locking and merging any quantity from empty positions restores total cash with no profit, odd quantities included |
| LedgerViews.SnapshotSound | crates/accounting-ledger/src/lib.rs:500-535 | On reachable states the snapshot never traps; its cash, fees, realized and locked P&L are those of the books, and it counts exactly the reservations with something left and the locks with tokens in them |
| LedgerViews.ReconcileSound | crates/accounting-ledger/src/lib.rs:553-597 | On reachable states the reconciliation view never traps; it counts the table of accepted commands, its collateral is all cash, its token balances are positive and mirror the external accounts, and its present ids are exactly the requested accepted ones |
| LedgerViews.RiskSound | crates/accounting-ledger/src/lib.rs:604-618 | On reachable states the risk view never traps; its cash figures are the available balance and what reservations hold, its categories are what is available, reserved and locked, and the first two make up the position |
| LedgerViews.CategoryIs | crates/accounting-ledger/src/lib.rs:620-641 | A category over available, reserved or locked token accounts never overflows and is the sum of those accounts with no zero entries |
| CrashSafety.RunKeepsSound | crates/accounting-ledger/src/durable.rs:65-141 | Every run with storage failures, crashes and restarts that sync nothing keeps the journal gap-free, replayable up to a final conflict, every acknowledged command in its durable part, and a live state that is the fold of all records or all but one in flight |
| CrashSafety.RecoveryExactly | crates/accounting-ledger/src/durable.rs:150-189 | After any run and any crash, whether or not an owner is live, recovery succeeds exactly when the last survivor is no conflict and then replays the survivors, every acknowledged command among them; they are the live history or one command more if and only if no installed record is lost |
| CrashSafety.SyncSecures | crates/accounting-ledger/src/durable.rs:112-120 | After one successful command or sync, until the next crash, every recovery that succeeds returns the live state or that state plus the one command in flight |
| CrashSafety.SubmitOutcomes | crates/accounting-ledger/src/durable.rs:65-105 | From what the storage did: the answer is the journal error if and only if the append or the sync fails, and the owner is then poisoned with its state and acknowledgements unchanged and the file longer by one record exactly when the append left one; otherwise the command is installed, durable and answered; a refusal changes nothing |
| CrashSafety.StorageFailureFreezes | crates/accounting-ledger/src/durable.rs:65-120 | After a failing append or sync of a running owner, no sequence of commands and syncs changes anything until the next crash |
| CrashSafety.ReplayExactly | crates/accounting-ledger/src/durable.rs:159-181 | Strict replay accepts a gap-free journal if and only if all its commands apply again and the sequence lasts, and returns their fold |
| CrashSafety.RecoverExactly | crates/accounting-ledger/src/durable.rs:150-189 | Any file at all is recovered if and only if its records are gap-free and well-formed, the sequence lasts and every command applies again, and then the result is the fold of its commands and its last sequence |
| CrashSafety.FirstFault | crates/accounting-ledger/src/durable.rs:159-202 | A refused file is refused for its first bad record, with the error of that record's fault, whatever follows it |
| CrashSafety.ConflictIsFatal | crates/accounting-ledger/src/durable.rs:69-104 | A conflict that was made durable freezes the live owner, and after whatever happens later every recovery of the journal fails |
| CrashSafety.PoisonIsForever | crates/accounting-ledger/src/durable.rs:65-141 | Over any sequence of commands and syncs without a restart, a poisoned owner, its journal and its acknowledgements never change |
| CrashSafety.CheckpointExactly | crates/accounting-ledger/src/durable.rs:150-189 | For any file, recovery with a checkpoint succeeds if and only if recovery without one does, its sequence is present and it carries that prefix's digest; it never changes the result |
| LedgerDurability.ConflictExactly | crates/accounting-ledger/src/durable.rs:69-76 | A conflict is answered exactly for a valid command that reuses an accepted id with other content, and from no other part of the ledger |
| LedgerDurability.LedgerRecovery | crates/accounting-ledger/src/durable.rs:150-189 | After any run, recovery succeeds if and only if the last survivor does not reuse an accepted id with other content; the ledger is the one the survivors reach, satisfies the ledger invariant and is not halted |
| LedgerDurability.LossExactly | crates/accounting-ledger/src/durable.rs:47-57 | When installed records are lost, the recovered ledger is an earlier one of the same run, and equals the live one if and only if everything lost was a duplicate |
| LedgerFaults.LossReached | crates/accounting-ledger/src/durable.rs:47-57 | A funding command appended but never synced, read back by a restart and lost by the next crash: the live ledger has one command, recovery returns the empty ledger |
| LedgerFaults.ConflictReached | crates/accounting-ledger/src/durable.rs:69-104 | Two valid funding commands with one id and different content, stored without a fault, leave a durable journal that no later recovery accepts |
| LedgerFaults.LastSequenceReached | crates/accounting-ledger/src/durable.rs:77-81 | One funding command submitted once more than the largest u64 is acknowledged and durable every time, and the journal it leaves is refused by recovery |
| DurableLedgerModel.DurableLedger.Apply | crates/accounting-ledger/src/durable.rs:65-105 | The object's journal, ledger, last sequence and poison flag change exactly as the write protocol says |
| DurableLedgerModel.DurableLedger.Sync | crates/accounting-ledger/src/durable.rs:112-120 | A sync makes the journal durable and answers so, or poisons the owner and reports the journal error; a poisoned owner only reports that it is halted |
| DurableLedgerModel.Open | crates/accounting-ledger/src/durable.rs:47-57 | A writer is accepted exactly when its last sequence is the recovered one |
| DurableLedgerModel.Reopen | crates/accounting-ledger/src/durable.rs:47-57 | Recovery of the surviving file and opening an owner over it is exactly the restart of the protocol, and makes nothing durable |
| DurableLedgerModel.RecoverSegmented | crates/accounting-ledger/src/durable.rs:150-202 | The replay loop over a ledger object returns what strict recovery specifies, with the same first error |
| AuthReplay.TolerantLoop | crates/authenticated-no-submit/src/durable.rs:90-148 | The halt-tolerant replay loop equals its specification as a fold |
| AuthReplay.TolerantExactly | crates/authenticated-no-submit/src/durable.rs:101-138 | Tolerant replay accepts a gap-free journal if and only if every command applies except possibly a final one that halts, and returns their fold |
| AuthReplay.TolerantRecoverExactly | crates/authenticated-no-submit/src/durable.rs:90-148 | Any file at all is recovered if and only if its records are gap-free and well-formed, the sequence lasts and every command applies except possibly a last one that halts |
| AuthReplay.SubmitAllOutcomes | crates/authenticated-no-submit/src/durable.rs:49-77 | The same outcomes for this owner, which journals every encodable command: the journal error if and only if the storage fails, then poisoned with its state unchanged; otherwise installed, durable and answered |
| AuthReplay.LiveIsRecovered | crates/authenticated-no-submit/src/durable.rs:49-77 | After any run and any crash, tolerant recovery succeeds exactly when the survivors failed only by halting and nothing follows the halt, and then replays them, every acknowledged command among them; they are the live history or one command more if and only if no installed record is lost |
| AuthReplay.SubmitAfterHaltIsFatal | crates/authenticated-no-submit/src/durable.rs:49-77 | Any encodable command submitted to a halted owner and synced makes every later recovery of the journal fail, restarts included |
| AuthReplay.HaltGuardExactly | crates/authenticated-no-submit/src/durable.rs:101-138 | For a core that halts on every failure of an encodable command while the sequence lasts, tolerant recovery accepts a gap-free journal if and only if the sequence lasts and nothing was submitted after the halt |
| AuthCore.CoreHalts | crates/authenticated-no-submit/src/lib.rs:408-449 | Whatever its transition does, the authentication core starts running, halts only by failing, refuses everything once halted, and halts on every failure of an encodable command while the sequence lasts |
| AuthCore.FailuresThatDoNotHalt | crates/authenticated-no-submit/src/lib.rs:408-449 | A failure leaves a running core running, and unchanged, if and only if an in-time command cannot be encoded, or is fresh and acceptable but the u64 counter is exhausted |
| AuthCore.AuthGuardExactly | crates/authenticated-no-submit/src/durable.rs:90-148 | An authentication journal is recoverable if and only if its sequence lasts and nothing was submitted after the halt |
| AuthCore.FirstOutcomeStands | crates/authenticated-no-submit/src/lib.rs:408-449 | On every run, a command once answered is answered the same again if and only if the core is running and the command's time is not before the latest |
| AuthReplay.RulesDifferExactly | crates/authenticated-no-submit/src/durable.rs:101-138 | The strict and the tolerant rule differ exactly on journals that end in a halting failure |
| AuthReplay.StrictImpliesTolerant | crates/authenticated-no-submit/src/durable.rs:101-138 | What the strict rule accepts the tolerant rule accepts with the same state |
| DurableAuth.DurableAuthCertification.Apply | crates/authenticated-no-submit/src/durable.rs:49-77 | The owner journals and syncs before installing, and reports a core error last |
| DurableAuth.Reopen | crates/authenticated-no-submit/src/durable.rs:35-45 | Tolerant recovery of the surviving records and opening an owner over them is exactly the restart of the protocol, and makes nothing durable |
| CheckpointCodec.EncodeCheckpoint | crates/accounting-ledger/src/durable.rs:230-239 | Filling the zeroed buffer field by field gives the record's concatenation |
| CheckpointCodec.DecodeEncode | crates/accounting-ledger/src/durable.rs:230-272 | Decoding an encoded checkpoint returns it, for every u64 sequence, 32-byte digest and checksum function |
| CheckpointCodec.EncodeDecode | crates/accounting-ledger/src/durable.rs:241-272 | Any bytes that decode are exactly the encoding of the result |
| CheckpointCodec.DecodeExactly | crates/accounting-ledger/src/durable.rs:230-272 | Bytes decode to a checkpoint if and only if they are its record at the 88-byte layout: magic, version 1, six zeros, the sequence little-endian, the digest, and the checksum of all that |
| CheckpointCodec.ChecksumCovers | crates/accounting-ledger/src/durable.rs:241-272 | Two records that decode with one checksum are equal, or their bodies are a collision of the checksum function |
| DepthWalk.Walk | scripts/build_btc_hourly_research.py:157-181 | The loop returns the outcome of the greedy fill of the levels it visits, or no fill at the first bad or misplaced level |
| DepthWalk.GreedyOptimal | scripts/build_btc_hourly_research.py:157-181 | The greedy fill fills the quantity from the visited levels, and of all such fills it has the least exact cost, or for bids the greatest proceeds |
| DepthWalk.RoundingBounds | scripts/build_btc_hourly_research.py:173-178 | The result is on the safe side of the exact amount and off by less than a micro per used level |
| DepthWalk.SaleBelowPurchase | scripts/build_btc_hourly_research.py:157-181 | On an uncrossed book selling a quantity brings at most what buying it costs |
| DepthWalk.WalkExactly | scripts/build_btc_hourly_research.py:157-181 | A side fills if and only if valid sorted levels at its front, levels of size zero among them, offer the quantity in total; it rejects the tape if and only if a pair that is not integers comes before that |
| DepthWalk.DepthIsTotal | scripts/build_btc_hourly_research.py:172-172 | The depth reported is the sum of the sizes of all visited levels |
| Compaction.CompactAll | scripts/import_hf_btc_hourly_bbo.py:147-325 | The import is rejected exactly when a selected row has a missing value, an unknown or mismatched token, a value out of bounds or a crossed quote, when too many buckets fill, or when too few sessions are covered; else the table has a level exactly where a two-sided row in its session falls, by market, token and span of one spacing, and the level holds the extremes over those rows |
| Compaction.AcceptedExactly | scripts/import_hf_btc_hourly_bbo.py:147-325 | An import is accepted if and only if every row of a known market is complete, of a known token and, where it counts, sound and mapped, the levels are not too many and they cover enough conditions |
| Compaction.SpansExactly | scripts/import_hf_btc_hourly_bbo.py:179-230 | The rows behind a level are those of the key's market and token with a time from the bucket's first millisecond up to the next bucket's |
| Compaction.LevelsApart | scripts/import_hf_btc_hourly_bbo.py:179-230 | Rows a spacing or more apart, or of different tokens, are never behind one level |
| Compaction.SummaryTight | scripts/import_hf_btc_hourly_bbo.py:231-278 | Each price and size of a level is within a micro of some row's own |
| Compaction.BatchingIrrelevant | scripts/import_hf_btc_hourly_bbo.py:179-278 | The table is determined by the set of rows: batch boundaries, row order and repetition do not matter |
| Compaction.RejectionIrrelevant | scripts/import_hf_btc_hourly_bbo.py:151-229 | Whether some batch holds a refused row is determined by the set of rows, not by batches or order |
| Compaction.MergeSummarizes | scripts/import_hf_btc_hourly_bbo.py:269-278 | Merging two rounded summaries summarizes the union: rounding commutes with the extremes and a missing receive time absorbs |
| Compaction.Uncrossed | scripts/import_hf_btc_hourly_bbo.py:231-278 | Every compacted level is uncrossed and within bounds |
| Compaction.CompactedBuyConservative | scripts/build_btc_hourly_research.py:157-181 | If the walk buys a quantity from a compacted level, every raw row of the bucket offered it, at an exact cost not above the walk's |
| Compaction.CompactedSaleConservative | scripts/build_btc_hourly_research.py:157-181 | If the walk sells a quantity into a compacted level, every raw row bid for it, with exact proceeds not below the walk's |
| Compaction.ImportConservative | scripts/import_hf_btc_hourly_bbo.py:222-278 | In an accepted import every usable row has a compacted level; what the walk buys or sells there is no better than at that row, and a sale never beats a purchase |
| Sampling.CollectFrames | scripts/build_btc_hourly_research.py:184-246 | The loop over the tape equals the fold of its rows, rejections included |
| SampledFrames.CollectedExactly | scripts/build_btc_hourly_research.py:184-246 | A tape is rejected if and only if some row has bad times, a time before an earlier row's of its series, or a walked side that raises; otherwise the frames of each series are, one for one and in order, those of its kept rows |
| SampledFrames.FramesAreKeptRows | scripts/build_btc_hourly_research.py:184-246 | A frame carries its row's sequence and times, becomes available after the latency, and has the cost, proceeds, depths and levels that walking that row's asks and bids returns; a row in the window whose sides both fill is kept if and only if no earlier row of its series in the window reached its grid cell |
| SampledFrames.FrameUncrossed | scripts/build_btc_hourly_research.py:231-245 | A frame of an uncrossed book has a positive cost and proceeds of at most its cost |
| Sampling.SampledSeriesGood | scripts/build_btc_hourly_research.py:222-245 | For any row order, each series has strictly increasing availability, at most one frame per grid cell, and positive entry costs |
| Sampling.BisectLeft | scripts/build_btc_hourly_research.py:260-260 | The binary search finds the boundary between values below the target and values not below it |
| Sampling.Label | scripts/build_btc_hourly_research.py:254-275 | A frame is labelled exactly when at every horizon the first frame at or after it is near enough, and with that frame's figures |
| Sampling.LabelAfterEntry | scripts/build_btc_hourly_research.py:249-275 | A label is the first frame a horizon or more after the entry, with that frame's proceeds; its return is the net profit after the least covering fee over the cost, floored, and non-negative exactly when the net profit is |
| Sampling.LabelledExactly | scripts/build_btc_hourly_research.py:259-265 | A horizon is labelled if and only if some frame lies within the allowed gap after it |
| Sampling.ReturnSign | scripts/build_btc_hourly_research.py:249-251 | The floored return is non-negative if and only if the net P&L is |
| PathLabels.LabelEntry | scripts/train_btc_hourly_path_model_v4.py:146-171 | The cursor loop returns the first exit of the entry, and nothing exactly when there is none |
| PathLabels.LabelSeries | scripts/train_btc_hourly_path_model_v4.py:141-171 | The labels added for a series in time order are exactly the first exits of its eligible entries, the last of one time counting, and no other series' labels change |
| PathLabels.Labels | scripts/train_btc_hourly_path_model_v4.py:133-172 | For rows in any order, every series, sorted by time, is labelled with exactly the first exits of its eligible entries; a row without a positive quantity rejects the input |
| PathLabels.LabelUnique | scripts/train_btc_hourly_path_model_v4.py:152-171 | An entry has at most one first exit |
| PathLabels.LabelMeaning | scripts/train_btc_hourly_path_model_v4.py:146-171 | A label never exits before entry, and strictly after it unless times repeat; a taken profit is a gain of at least the policy's part of the cost; a stop is a loss of at least its part, or leaves nothing |
| PathLabels.LabelExactly | scripts/train_btc_hourly_path_model_v4.py:146-171 | In cross-multiplied integers: an entry is labelled by the first frame up to the deadline whose loss or net profit reaches the policy's part of the cost, every frame passed over reaching neither, or else by the first frame from the deadline on, within the gap; the fee is the least whole one that covers its rate |
| PathLabels.EligibleExactly | scripts/train_btc_hourly_path_model_v4.py:112-130 | An entry is eligible by the whole micros per share that its cost and proceeds hold, the spread between them and its progress |
| PathLabels.LabelsForward | scripts/train_btc_hourly_path_model_v4.py:133-172 | No label of the whole input exits before its entry |
| PathLabels.StopBelowTarget | scripts/train_btc_hourly_path_model_v4.py:146-160 | The stop lies below cost and the target above cost and fee, so no frame is both |
| Simulation.Simulate | scripts/train_btc_hourly_path_model_v4.py:210-271 | For any candidates and labels: trades of a condition never overlap and come in order of condition and time, each enters the best candidate of its moment, every other moment is blocked by an open position, not tradable, or before the time that stands for no position; net is gains minus losses, the profit factor their ratio, drawdown the greatest fall of the equity, and the reasons are counted exactly |
| Simulation.TradeMeaning | scripts/train_btc_hourly_path_model_v4.py:216-249 | Every trade enters a candidate that no candidate of its condition and time outscores, ties going to Up, which reaches the threshold, and ends as the label of that candidate's row says |
| Simulation.PassedOverMeaning | scripts/train_btc_hourly_path_model_v4.py:216-249 | A moment not traded was inside an open position of its condition, or its top-scored candidate is below the threshold or has no label |
| Simulation.FactorMeaning | scripts/train_btc_hourly_path_model_v4.py:258-271 | The profit factor is gains over losses in thousandths, floored; without losses it is a million when there are gains and else nothing |
| Simulation.Measure | scripts/train_btc_hourly_path_model_v4.py:250-271 | One pass over any P&L list yields its net, gains, wins and greatest fall from a point to a later one |
| PrefixFreeze.KeptIsLongest | scripts/export_btc_5m_per_second.py:265-268 | Cutting after the last newline keeps the longest prefix that ends with one |
| PrefixFreeze.FreezeSource | scripts/export_btc_5m_per_second.py:257-296 | The one-shot form fails exactly on a bad size, a short read or no newline, and otherwise keeps that prefix with the tail counted |
| PrefixFreeze.StreamPrefix | scripts/run_btc_hourly_research_cycle.py:108-158 | For every chunking, a stream that is not rejected keeps that prefix and counts its newlines; each rejection names a true fault |
| PrefixFreeze.ReadRecords | scripts/export_last_48h_capture.py:324-350 | The line reader rejects exactly when some complete line is refused; otherwise it keeps that prefix of what is there, and kept plus trailing bytes are the frozen size |
| PrefixFreeze.FreezersAgree | scripts/export_last_48h_capture.py:324-350 | Whenever none rejects the source, the three keep the same bytes, leave the same tail and count the same rows |

## Left out

- JSON encoding, the 64 KiB payload bound and the byte layout fed to the digests: idealised as said above; a valid command never reaches the bound, so the Json and Version errors are not modelled.
- BLAKE3 and SHA-256 internals: a digest is equal exactly for equal inputs, so collisions are not modelled.
- The halt reason text and the asset inside the Unbalanced error: the flag and the error kind are modelled.
- `EventJournal`, `SegmentedJournalReader` and `EventEnvelope` are not part of this model: segment corruption, I/O errors on reading and envelope schema errors do not occur here, and a torn last record is one that was lost, as after the recorder's explicit recovery, without which neither reader nor writer opens the file.
- The authentication core's data and transition: any deterministic transition stands for them, since only how its failures are answered matters to recovery.
- AccountingLedgerModel.AccountingLedger.ApplyFresh: on an error its contract says nothing about the fields, because the object is a candidate that `Apply` then discards.
- Simulation.Simulate: scores are reals, so a score that is no number is not modelled.
- PathLabels.Labels: rows with decoded integer fields; missing fields and string conversion are not modelled.
- Compaction.CompactAll: prices and sizes are finite; the checksum, schema and size checks on the source file before the first batch, and a file of identities and session bounds, are taken as given.
- Compaction.BatchingIrrelevant: receive times are exact integers. A data-frame column of integers with a missing value may become floating-point, so that a bucket's receive time could be rounded because of another row of its batch; that conversion is not modelled.
- Sampling.CollectFrames: rows of known tokens with decoded fields; non-book lines, which are skipped, and malformed JSON or a condition mismatch, which reject the tape, are not modelled.
- DepthWalk.Walk: a book side is a list of levels; a side that is no list at all gives no fill in the source.
- `LATEST_USABLE_SNAPSHOT` compaction: its tie-breaking on a missing receive time differs within and across batches, so the table there depends on the batching.
- PrefixFreeze.StreamPrefix: the inode and size checks after reading, hashing and publishing the blob are not modelled; nor is the file growing while it is read, since only the first frozen bytes matter.
- Model training, feature vectors, floating-point statistics, the retired float simulators, capture scripts, the advisor server, terminal UI and deploy files: floats, network I/O or display.
