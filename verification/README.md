# Verified model of the peaq chain test tools

The repository drives a peaq parachain from outside: it submits transactions to a chain that may
reorganise, and it audits what the chain paid its collators and delegators. This project models
the algorithms of that client and proves what they promise. The chain is what a node answers:
an arbitrary function of the height (audit) or of time (submission). What an honest chain does is
a predicate on those answers, so every theorem says which property of the chain it needs.

`dafny verify dfyconfig.toml` checks everything.

## How the files fit together

Session-reward audit (`tools/stress/stress_token_economy_v2.py`, `tools/fetch_evm_tx_fee.py`)

- `Totals.dfy`: sums over dictionaries in any order, and dictionaries filled by assignment, where a later write to a key replaces an earlier one
- `ChainView.dfy`: events, rounds, snapshots, and the node's answers
- `Sessions.dfy`: the walk back over rounds and the tiling it returns
- `BlockTally.dfy`: the per-block comparison and conservation of blocks
- `RewardSplit.dfy`: the loops that split a reward; `RewardLaws.dfy`: conservation; `CommissionLaws.dfy`: what a commission moves
- `PotLedger.dfy`: the balance of the staking pot
- `Payouts.dfy`: reading and checking payouts; `RewardBounds.dfy`: what acceptance implies and what it needs
- `Audit.dfy`: one session end to end, complete for honest chains and sound up to the tolerance; `TwoPools.dfy`: a chain that meets the hypotheses, and one that pays a pool twice; `UnknownAuthor.dfy`: one with an author that is not in the snapshot
- `FeeTip.dfy`: fees and tips of Ethereum extrinsics

Submission to a reorganising chain

- `ReorgChain.dfy`: runs of a chain that extends, reorganises and finalises (`NodeStepsAreSteps` shows that each of these is a `Step`), and what stays on it whatever it does next
- `ReorgSubmit.dfy`, `BatchRetry.dfy`, `EvmRetry.dfy`: the three clients; between any two requests any number of chain steps may pass, as an arbitrary schedule says (`Schedule.dfy`). `BatchRetry.dfy` submits through `ReorgSubmit.dfy`, as `tools/utils.py:22-29` installs them

Names, searches, encodings

- `CallNames.dfy`: the name printer and a parser that is its exact inverse; `FeeBuckets.dfy`: the statistics keyed by those names
- `VersionSearch.dfy`, `StoragePaging.dfy`, `AssetIds.dfy`, `FixedArray.dfy`

## What the code does that its words do not say

- The binary search never returns the first block of a version except by accident: it adds one to the recorded block, may leave the last candidate unread, and answers 1 both then and for a version that never ran. `VersionSearch.AnswerIsExactly` gives the answer in every case and `VersionSearch.AnswerIsRightIff` the one family of histories in which it is the first block.
- `monkey_submit_extrinsic` puts the submitted hash on the receipt whatever it re-reads. `ReorgSubmit.MisledClient` is given a wrong receipt; `ReorgSubmit.ReceiptIsRightIff` says when it is right, and that comparing the hash re-read would tell, for ever.
- The length of what is encoded for U16 to U256 is checked only for texts, and there by characters, while `bytes.fromhex` skips white space; a value that Python takes for false skips every check. So a text of blanks passes (`FixedArray.BlanksAccepted`), as do the empty text, nothing at all and a list of any length; `FixedArray.WideLengthIff` says of every accepted value when its length is right.
- A delegator listed twice, or a collator that delegates to itself, overwrites its own share. The shares sum to 1 exactly when nothing of value is overwritten (`RewardLaws.SharesSumToOneIff`). In such a pool the total can depend on the commission; `CommissionLaws.TotalKeptIff` says in which pools it does not.
- `block_check` looks one way: a block in which the pot gains more than was deposited passes (`PotLedger.DriftAcceptedIff`).
- The audit accepts a session that pays one pool twice and another never (`TwoPools.PaidTwice`), and one with a contributor that the snapshot does not know (`UnknownAuthor.UnknownAuthorAccepted`). An accepted session pays every contributor exactly when it pays none twice (`Audit.EveryPoolPaidIff`), and what is left unpaid, with what the split loses, is what is paid twice, within little more than twice the tolerance (`Audit.AcceptedSessionUnpaid`).
- The retry of a batch returns a receipt from a backtrace without waiting for finality, whatever the caller asked for (`BatchRetry.UnfinalReceipt`, `BatchRetry.ReceiptStaysIff`); so does the EVM submission after a wait that timed out (`EvmRetry.UnfinalReceipt`, `EvmRetry.ReceiptStaysIff`).
- Only the first part of a liquidity pair is masked to 32 bits, and a token is not bounded: an id is read back exactly for enums in range (`AssetIds.IdReadBackIff`), and others collide (`AssetIds.OutOfRangeCollides`).
- The message of `monkey_submit_extrinsic` speaks of 3 blocks; the code waits for 4 and looks at 8.

## Assumptions about libraries

- Python `Decimal` is a real number without rounding; `Decimal(0.0001)` and `Decimal(0.000001)` are the exact values of those doubles.
- A dictionary is iterated in some order; no result depends on it except which of several errors is reported first.
- A node reports the canonical block at a height; a reorganisation never shortens the best chain or touches finalised blocks; asking for a negative height is an error.
- `wait_for_n_blocks` belongs to the peaq library and its code is not part of this model: it returns once the best head is n blocks above the one it saw first.
- A batch is submitted waiting for its inclusion, under the hash its extrinsic has.
- Re-reading an extrinsic by position fails when there is no such index and compares nothing.
- Hashes are injective: an extrinsic hash stands for the extrinsic, an EVM transaction hash for its nonce and payload.
- `bytes.fromhex` skips ASCII white space between bytes; an element encoder is fixed-width little-endian and rejects numbers that do not fit.
- Storage maps have distinct keys and `query_map` returns the entries after the start key in storage order.

## Model

| member | source | states |
|---|---|---|
| Sessions.PreviousSessions | tools/stress/stress_token_economy_v2.py:22-52 | fails exactly in the first round; on any answers the intervals are adjacent; on a chain whose rounds advance, also when cut short, they are the min(n, current - 1) rounds before the current one, newest first, each exactly the blocks stored under its round |
| Sessions.RoundBegan | tools/stress/stress_token_economy_v2.py:34-51 | a stored round has been in force since its first block, and the block before that is in the previous round |
| Sessions.SessionsTile | tools/stress/stress_token_economy_v2.py:49-51 | the intervals are disjoint and cover exactly the blocks from the oldest first block to the current round's first block |
| BlockTally.TraverseAndCheck | tools/stress/stress_token_economy_v2.py:55-78 | passes exactly when at every block after the session's first the author's stored counter is the number of blocks it made since; otherwise names the first block that disagrees |
| BlockTally.CounterAgreesIff | tools/stress/stress_token_economy_v2.py:69-77 | a block passes exactly when storage counts for its author as many blocks as it made after the session's first, counted one by one |
| BlockTally.WrongCounterIsCaught | tools/stress/stress_token_economy_v2.py:69-77 | a block does not pass when the counter of its author is any number but the chain's |
| BlockTally.SumCounts | tools/stress/stress_token_economy_v2.py:417 | the sum over a dictionary of counts, in any order |
| BlockTally.HonestCountersAgree | tools/stress/stress_token_economy_v2.py:61-77 | on a chain that counts blocks the per-block comparison never fails |
| BlockTally.BlocksAreConserved | tools/stress/stress_token_economy_v2.py:164-181 | the counts are those of the blocks after the first up to the next session's first; they sum to the session length, so contributors are no more than blocks |
| BlockTally.WrongCounterDoesNotAddUp | tools/stress/stress_token_economy_v2.py:164-181 | when one counter at the end of a session is any other number, the counts do not sum to the session length |
| BlockTally.ChainCountsAreHonest | tools/stress/stress_token_economy_v2.py:60-77 | crediting every block in the round in force before it gives every session honest counters |
| BlockTally.TraversalPasses | tools/stress/stress_token_economy_v2.py:81-86 | the whole traversal passes on such a chain, however many rounds it goes back, and every count adds up |
| RewardSplit.TotalStakingNum | tools/stress/stress_token_economy_v2.py:221-230 | the weights of the collators that are in the snapshot and produced blocks, added in any order |
| RewardSplit.PoolWeightMeaning | tools/stress/stress_token_economy_v2.py:226-229 | a pool weighs its blocks times everything staked in it |
| RewardSplit.TotalStakingRatio | tools/stress/stress_token_economy_v2.py:196-218 | nothing when no collator takes part, a division by zero when the total weight is zero, else the shares of every pool taking part |
| RewardSplit.OnePool | tools/stress/stress_token_economy_v2.py:204-216 | the assignments for one pool in order, later ones replacing earlier ones for the same account |
| RewardSplit.CalculateReward | tools/stress/stress_token_economy_v2.py:378-386 | every share times the session reward, with the same error cases |
| RewardLaws.DivisionByZeroIff | tools/stress/stress_token_economy_v2.py:196-230 | a division by zero exactly when somebody takes part but nobody who does has both blocks and stake; nothing and no error when nobody takes part |
| RewardLaws.PoolEntrySum | tools/stress/stress_token_economy_v2.py:207-215 | what is assigned in a pool adds up to its part of the total weight, whatever the commission |
| RewardLaws.CollatorShareMeaning | tools/stress/stress_token_economy_v2.py:207-212 | the collator's share in closed form |
| RewardLaws.SharesPlusLosses | tools/stress/stress_token_economy_v2.py:196-230 | shares handed out plus shares overwritten are exactly 1 |
| RewardLaws.SharesSumToOneIff | tools/stress/stress_token_economy_v2.py:196-230 | the shares sum to at most 1, and to 1 exactly when no pool overwrites a share of value, a condition read off the snapshot |
| RewardLaws.RewardIsConservedIff | tools/stress/stress_token_economy_v2.py:378-386 | the rewards sum to exactly the session reward under that same condition |
| CommissionLaws.DistinctPoolShares | tools/stress/stress_token_economy_v2.py:207-215 | with distinct payees every account gets the share computed for it |
| CommissionLaws.RaisingCommission | tools/stress/stress_token_economy_v2.py:200-216 | with distinct payees, raising the commission keeps the pool's total, never costs the collator, never pays a delegator |
| CommissionLaws.RaisingMovesTotal | tools/stress/stress_token_economy_v2.py:200-216 | with any payees, how much another commission moves the pool's total: its difference taken of the repeated amounts, less of everything delegated if the collator delegates to itself |
| CommissionLaws.TotalKeptIff | tools/stress/stress_token_economy_v2.py:200-216 | which pools keep their total under another commission, read off the delegations: those in which no delegation of value is replaced by a later one, or, if the collator delegates to itself, those in which no account's last delegation has value |
| CommissionLaws.FullCommission | tests/delegator_issue_test.py:238-264 | at 100% every delegator gets 0 |
| CommissionLaws.HalfCommission | tests/delegator_issue_test.py:195-213 | at 50%, with two delegators staking as much as the collator, the collator gets four times each |
| PotLedger.AllDepositsToPot | tools/stress/stress_token_economy_v2.py:306-321 | the sum of the deposits to the pot among a block's events |
| PotLedger.EventsAdd | tools/stress/stress_token_economy_v2.py:306-321 | only deposits to the address of the pot and only rewards count, each once, wherever they stand |
| PotLedger.TotalSessionRewards | tools/stress/stress_token_economy_v2.py:324-340 | the deposits of all blocks of a session |
| PotLedger.BlockCheck | tools/stress/stress_token_economy_v2.py:153-161 | passes exactly when in every block looked at the unexplained loss is within the precision; otherwise names the first block where it is not |
| PotLedger.EventsMoveBalance | tools/stress/stress_token_economy_v2.py:142-150 | folding the events of a block over the balance, a deposit to the pot adding and a reward taking away, moves it by the deposits less the payouts |
| PotLedger.LedgerTelescopes | tools/stress/stress_token_economy_v2.py:142-150 | on a ledger moved by its events alone, the deposits of any run of blocks equal the change of the balance plus everything paid out |
| PotLedger.LedgerAccepted | tools/stress/stress_token_economy_v2.py:153-161 | a ledger moved by its events alone passes, however many blocks are looked at |
| PotLedger.DriftAcceptedIff | tools/stress/stress_token_economy_v2.py:160 | a balance that is off what the events lead to passes exactly when it is too low by no more than the precision; every gain passes |
| PotLedger.AcceptedLeakIsBounded | tools/stress/stress_token_economy_v2.py:153-161 | over any accepted run of blocks the loss beyond payouts is at most that fraction of all deposits |
| Payouts.ReadBlock | tools/stress/stress_token_economy_v2.py:359-367 | a block's payouts by account with the last event winning, and the account of the first event as collator |
| Payouts.GetRewardInfo | tools/stress/stress_token_economy_v2.py:355-375 | one payout per block from the start up to the first block without any, and no further than the session length |
| Payouts.CheckReward | tools/stress/stress_token_economy_v2.py:389-406 | accepts exactly when the paid total and every entry are within tolerance and every entry was calculated; a total off is reported first, an entry error names an entry that is off or was not calculated |
| RewardBounds.EntriesBoundTotal | tools/stress/stress_token_economy_v2.py:400-406 | if every calculated entry is paid once and accepted, the paid total P and the calculated total T differ by at most the tolerance times P |
| RewardBounds.TotalAcceptedIff | tools/stress/stress_token_economy_v2.py:395-398 | the total is accepted exactly from a ten-thousandth below the reward to a ten-thousandth above it |
| RewardBounds.CloseIsBetween | tools/stress/stress_token_economy_v2.py:404-406 | an entry is accepted exactly from a ten-thousandth of the amount paid below that to as much above it |
| RewardBounds.RoundingIsFair | tools/stress/stress_token_economy_v2.py:404 | amounts of at least 10000 that are rounded, down or up, are within the tolerance of paid and calculated amount |
| RewardBounds.FairPayoutsAccepted | tools/stress/stress_token_economy_v2.py:389-406 | payouts over or under by no more than the tolerance of either amount, of a reward fully shared out, pass every comparison |
| RewardBounds.AcceptedUnpaidIsPaidAgain | tools/stress/stress_token_economy_v2.py:389-406 | when accepted, the entries never paid and the part of the reward not shared out come together to what is paid again, up to (2 + e) times e of the reward from below and 2e from above, e the tolerance |
| RewardBounds.PaidAgainIsNotNegative | tools/stress/stress_token_economy_v2.py:389-406 | what is paid again is never negative, and is nothing when no collator is paid in two blocks |
| RewardBounds.AcceptedLeavesLittleUnpaid | tools/stress/stress_token_economy_v2.py:389-406 | when accepted and no collator is paid twice, they come to at most twice the tolerance of the reward |
| RewardBounds.PaidTwiceIffOneUnpaid | tools/stress/stress_token_economy_v2.py:432-435 | with as many payouts as contributors, each naming a contributor, no collator is paid in two blocks exactly when each is paid |
| Audit.CheckSession | tools/stress/stress_token_economy_v2.py:409-443 | accepts exactly when blocks are all counted, contributors and payouts are equally many, and the rewards fit; an error says which check failed, the ones before it having passed, and a reward error names an entry that is off |
| Audit.DistributionCheck | tools/stress/stress_token_economy_v2.py:446-451 | every session of the walk is accepted, or the result names the first, newest first, that is not, with the error of the check it fails |
| Audit.AcceptedIffCounted | tools/stress/stress_token_economy_v2.py:417-418 | a session that pays what is due, one pool a block, is accepted exactly when its block counts sum to its length |
| Audit.WrongCountIsRejected | tools/stress/stress_token_economy_v2.py:417-418 | on a chain that counts blocks but for one author, whose counter is any other number, the session is not accepted |
| Audit.DuePoolsCalculated | tools/stress/stress_token_economy_v2.py:430-442 | with distinct payees and a positive weight what is calculated covers all contributors and sums to the session reward |
| Audit.PayoutsInOrder | tools/stress/stress_token_economy_v2.py:355-375 | pools paid one per block, in any order of collators, are read back as just that |
| Audit.HonestSessionAccepted | tools/stress/stress_token_economy_v2.py:409-443 | completeness: every honest session passes every check, including that the payouts fit into the session length |
| Audit.HonestChainAccepted | tools/stress/stress_token_economy_v2.py:446-451 | completeness along a whole chain whose rounds advance and whose blocks are credited as they come |
| Audit.EveryPoolPaidIff | tools/stress/stress_token_economy_v2.py:409-443 | soundness, for every accepted session: every contributor is paid exactly when no collator is paid in two blocks, and then every contributor is in the snapshot |
| Audit.LostIsNothingIff | tools/stress/stress_token_economy_v2.py:437-443 | in an accepted session the split never hands out more than the reward, and all of it exactly when the snapshot overwrites no share of value |
| Audit.AcceptedSessionUnpaid | tools/stress/stress_token_economy_v2.py:409-443 | soundness in amounts, for every accepted session: what was due and never paid, with what the split loses, is what is paid again, within bounds on both sides of little more than twice the tolerance |
| Audit.AcceptedSessionPaysNearlyAll | tools/stress/stress_token_economy_v2.py:409-443 | with no collator paid twice it is at most twice the tolerance of the session's reward |
| TwoPools.PaidInFull | tools/stress/stress_token_economy_v2.py:409-451 | on a concrete chain of two rounds, with a delegator, a commission and rounded amounts, all hypotheses of completeness hold together, the session is accepted and every pool is paid |
| TwoPools.PaidTwice | tools/stress/stress_token_economy_v2.py:432-443 | on the same chain with another last block, the session is accepted although one pool is paid in both blocks and the other in none |
| UnknownAuthor.UnknownAuthorAccepted | tools/stress/stress_token_economy_v2.py:409-443 | on a concrete chain a session is accepted although one contributor is not in the snapshot and only one of three is paid, three times |
| FeeTip.AllFees | tools/fetch_evm_tx_fee.py:43-71 | succeeds exactly when every Ethereum extrinsic past the second starts with a withdrawal; sums the deposits after it and counts the extrinsics |
| FeeTip.AllTips | tools/fetch_evm_tx_fee.py:9-40 | succeeds exactly when also no extrinsic deposits more than it withdrew; sums what is left |
| FeeTip.FeesAndTips | tools/fetch_evm_tx_fee.py:74-84 | the two passes never disagree on the count; fee plus tip is everything withdrawn first, and the tip is not negative |
| FeeTip.ExtrinsicAdds | tools/fetch_evm_tx_fee.py:16-34 | an extrinsic adds its first withdrawal and its later deposits exactly when it is an Ethereum call past the second |
| FeeTip.RelatedAdds | tools/fetch_evm_tx_fee.py:22-24 | the events of an extrinsic are those with its index, in order, whatever stands between them |
| ReorgSubmit.Client.WaitForBlocks | tools/monkey/monkey_3rd_substrate_interface.py:52 | ends with the first look that sees a head at least n blocks above the one it started from, unless none of the looks the client has patience for does |
| ReorgSubmit.Client.WaitFinalization | tools/monkey/monkey_3rd_substrate_interface.py:13-19 | looks at once and again after each new block, and ends with the first look that sees the height final, unless none of the looks the client has patience for does or the head stands still for as many |
| ReorgSubmit.Client.ScanBack | tools/monkey/monkey_3rd_substrate_interface.py:53-68 | reads down from the head, stops at the first block that held the hash when read, and on blocks not replaced meanwhile sees it exactly if one of the last 8, genesis apart, holds it |
| ReorgSubmit.Client.SubmitExtrinsic | tools/monkey/monkey_3rd_substrate_interface.py:38-90 | for every chain and every schedule of requests: which answer is given in which case and from which requests, the scan coming right after the wait for four blocks; a wait given up is named with its cause; on blocks not replaced during the scan it is not included exactly when none of the last 8 above genesis holds it; a receipt rests on a sighting, on finality seen after it and on a position that exists when re-read |
| ReorgSubmit.PollsMeaning | tools/monkey/monkey_3rd_substrate_interface.py:14-19 | the first look for finality comes at once, each next one right after a wait for one block, and only the last can see it |
| ReorgSubmit.PatienceIff | tools/monkey/monkey_3rd_substrate_interface.py:13-52 | some patience is enough for every wait, so that none is given up, exactly when the chain keeps growing and keeps being finalised |
| ReorgSubmit.ReceiptIsFinal | tools/monkey/monkey_3rd_substrate_interface.py:74-85 | a returned height is final and what is at the position never changes again |
| ReorgSubmit.SubmissionIsSafe | tools/monkey/monkey_3rd_substrate_interface.py:52-85 | if the block was not replaced between the scan and finality the receipt names the submitted extrinsic for ever |
| ReorgSubmit.ReceiptIsRightIff | tools/monkey/monkey_3rd_substrate_interface.py:74-85 | the receipt is right for ever exactly when the position holds at the sight of finality what it held when the scan read it, and exactly when the extrinsic re-read has the submitted hash |
| ReorgSubmit.MisledClient | tools/monkey/monkey_3rd_substrate_interface.py:52-85 | the client, on a run whose head grows and that is reorganised between the scan and finality, returns a receipt for a position that holds another extrinsic for ever |
| ReorgSubmit.ScanFindsHighest | tools/monkey/monkey_3rd_substrate_interface.py:56-68 | on blocks not replaced during the scan, what it finds is in one of the last 8 and not in genesis, is the first in its block, and no higher block holds the hash |
| ReorgSubmit.ScanMissesNone | tools/monkey/monkey_3rd_substrate_interface.py:56-72 | and a scan that finds nothing means that none of those blocks holds it |
| BatchRetry.BatchClient.Backtrace | tools/monkey/monkey_reorg_batch.py:14-24 | reads down from the head with one request a block, and reports the highest of ten blocks that held the hash when read, or that none did, or that the window went below genesis |
| BatchRetry.BatchClient.Try | tools/monkey/monkey_reorg_batch.py:40-46 | an attempt is a submission by the installed client on the same chain: its receipt executes the batch, its two errors call it invalid, a refusal says which it is, and it stalls only in a wait that was given up |
| BatchRetry.BatchClient.LookBack | tools/monkey/monkey_reorg_batch.py:48-62 | four backtraces, each right after a wait of four blocks, end in a receipt, an error, or four sightings of nothing, unless a wait is given up |
| BatchRetry.BatchClient.Execute | tools/monkey/monkey_reorg_batch.py:35-72 | for every sequence of replies it ends in a receipt, in an error, or in a wait that was given up, never by falling out of the loop, and the log of the run has the shape that decides which |
| BatchRetry.RetryAnswers | tools/monkey/monkey_reorg_batch.py:35-72 | totality: on a chain that keeps growing and keeps being finalised, with patience enough, no run of the retry ends in a wait, so each ends in a receipt or an error |
| BatchRetry.HowItEnds | tools/monkey/monkey_reorg_batch.py:39-72 | which answer each reply leads to; the error of the request is raised only for a refusal that does not say invalid or after the third failure |
| BatchRetry.BacktracesFollowWaits | tools/monkey/monkey_reorg_batch.py:48-53 | every backtrace begins right after the first sight of a head 4 blocks higher |
| BatchRetry.RetryIsBounded | tools/monkey/monkey_reorg_batch.py:39-68 | at most 3 submissions and 12 backtraces |
| BatchRetry.ResubmitsOnlyUnseen | tools/monkey/monkey_reorg_batch.py:45-66 | every resubmission follows four backtraces, and no block of their ten that was not replaced meanwhile holds the earlier extrinsic |
| BatchRetry.ReceiptStaysIff | tools/monkey/monkey_reorg_batch.py:40-63 | the position on a receipt has an extrinsic when looked up, and keeps it whatever the chain does next exactly when its height is final by then; that of a submission always is |
| BatchRetry.ReceiptWasSeen | tools/monkey/monkey_reorg_batch.py:53-62 | a receipt from a backtrace names the highest position among its ten blocks that holds the extrinsic of the last attempt; it holds it at an instant exactly when it has then what the backtrace read, and so for as long as the block is not replaced |
| BatchRetry.UnfinalReceipt | tools/monkey/monkey_reorg_batch.py:53-62 | the retry, run on a chain on which nothing is final, returns a receipt that a reorganisation can undo |
| EvmRetry.EvmClient.WaitForTx | tools/peaq_eth_utils.py:147-155 | times out exactly when no look in time saw the payload executed; else ends with the first look that saw its height final, unless none of those the client has patience for did; or raises the error |
| EvmRetry.PatienceIff | tools/peaq_eth_utils.py:150-151 | some patience is enough for every wait for finality exactly when finality reaches every height |
| EvmRetry.EvmClient.PollReceipt | tools/peaq_eth_utils.py:165-173 | at most three looks in order, all but the last finding nothing; a receipt is of the payload asked for, executed on the chain at the last look, and none means that no look found it |
| EvmRetry.EvmClient.SignAndSubmit | tools/peaq_eth_utils.py:158-177 | sends at most 3 payloads, the data with 0, 1, 2 pairs of zeros and one nonce, each further one only after three looks did not find the one before; leaves the data lengthened in place; a receipt is for the payload sent last, as the first look to find it saw it; each error in its case |
| EvmRetry.PaddingsDiffer | tools/peaq_eth_utils.py:158-176 | the payloads are pairwise different transactions with one nonce |
| EvmRetry.PaddingMeaning | tools/peaq_eth_utils.py:176 | the k-th payload is the data followed by 2k zeros, under the same nonce |
| EvmRetry.AtMostOneIsEverFinal | tools/peaq_eth_utils.py:158-177 | over a whole run, whatever two instants are compared, at most one of them is ever final |
| EvmRetry.FinalPayloadIsTheOnly | tools/peaq_eth_utils.py:158-177 | once one is final it stays and no other ever executes |
| EvmRetry.WaitSettles | tools/peaq_eth_utils.py:147-177 | if the execution was not replaced while the wait saw finality, the last payload is settled |
| EvmRetry.ReceiptStaysIff | tools/peaq_eth_utils.py:158-177 | a receipt is of an execution that stays, whatever the chain does next, exactly when its height is at or below the finalised one at the look that found it |
| EvmRetry.UndisturbedReceiptStays | tools/peaq_eth_utils.py:147-171 | after a wait that saw finality, the execution not being replaced meanwhile, the execution on a receipt stays |
| EvmRetry.UnfinalReceipt | tools/peaq_eth_utils.py:147-171 | the client, its wait having timed out, returns a receipt of an execution that the next block can undo |
| CallNames.ComposePrintsShape | tests/substrate_utils.py:12-26 | the printer succeeds exactly when each sudo holds a call and each Utility or batch_all call holds a list, and prints the shape of the tree |
| CallNames.BatchNames | tests/substrate_utils.py:20-26 | every call of Utility and every batch_all is named exactly when it holds a list of calls that all are, and its name shows theirs in order |
| CallNames.CommasBetween | tests/substrate_utils.py:23-24 | the names inside are set off by commas |
| CallNames.SudoNames | tests/substrate_utils.py:16-19 | Sudo.sudo is named exactly when it holds a call that is, in brackets |
| CallNames.OtherNames | tests/substrate_utils.py:20-21 | every other call is named whatever its argument |
| CallNames.ParseInvertsPrint | tests/substrate_utils.py:12-26 | a parser undoes the printer on every tree whose names are free of delimiters, at any depth and width |
| CallNames.ParseIsExact | tests/substrate_utils.py:12-26 | the parser accepts exactly the printed names |
| CallNames.SameNameIffSameShape | tests/substrate_utils.py:12-26 | two calls share a name exactly when their trees have the same shape and names |
| CallNames.SameBatchIffSameCalls | tests/substrate_utils.py:20-26 | two batches of one pallet and function share a name exactly when the calls they hold share theirs one by one |
| CallNames.DottedNamesCollide | tests/substrate_utils.py:15 | with a dot in a name different calls collide |
| FeeBuckets.TransactionFee | tests/substrate_utils.py:29-37 | the fee and tip of the first fee event of the extrinsic, or nothing exactly when there is none |
| FeeBuckets.TransactionWeight | tests/substrate_utils.py:40-51 | the weight of the first dispatch of the extrinsic, failed or not, or nothing exactly when there is none |
| FeeBuckets.OthersDoNotMatter | tests/substrate_utils.py:29-51 | fee and weight do not change when events of other extrinsics are added, removed or altered |
| FeeBuckets.FeeRecorder.RecordExtrinsic | tests/substrate_utils.py:54-80 | records the first extrinsic with the hash under its name, with the fee, tip and weight its events give, or fails and leaves everything as it was; each error in its case |
| FeeBuckets.FeeRecorder.Summarise | tests/substrate_utils.py:103-112 | one summary per bucket, failing exactly when a record has no weight |
| FeeBuckets.SummariseBucket | tests/substrate_utils.py:106-111 | means with their fractions: times the number of records they give back the sums of fees, tips and weights; no entry exactly when a weight is missing |
| FeeBuckets.SumsAdd | tests/substrate_utils.py:106-109 | the sums count each record once |
| FeeBuckets.BucketIsShape | tests/substrate_utils.py:64-74 | a bucket holds exactly the records of the calls of its shape, in order |
| VersionSearch.FindFirstOccurrence | tools/get_runtime_version_block.py:15-34 | on a history of upgrades the answer is the one given in closed form by the first block, the height and the next block; it is 1 for a version that never ran |
| VersionSearch.ProbeKeepsInPlay | tools/get_runtime_version_block.py:20-33 | every probe keeps the first occurrence between low and high + 1 and the recorded block just above high |
| VersionSearch.AnswerIsExactly | tools/get_runtime_version_block.py:15-34 | the answer in every case: first block plus 1 unless the bounds, which depend on the first block and the height alone, meet at it unseen; then plus 2 if the next block has the version and 1 if not |
| VersionSearch.AnswerIsRightIff | tools/get_runtime_version_block.py:15-34 | the answer is the first block exactly when that is block 1, block 2, if there is one, has a later version, and the height is from 2 * 2^k - 1 to 3 * 2^k - 2 for some k |
| VersionSearch.AbsentGivesOne | tools/get_runtime_version_block.py:19-34 | a version that never ran gives 1 |
| VersionSearch.FewProbes | tools/get_runtime_version_block.py:20-21 | fewer than 2^k blocks take fewer than k of the probes the search counts |
| StoragePaging.QueryStorage | tools/snapshot_info.py:121-151 | a plain value is returned as it is; a map of n entries is read in n / 1000 + 1 pages, each entry written once in order |
| StoragePaging.PageAtCursor | tools/snapshot_info.py:136-149 | the page after the last key is exactly the next entries |
| StoragePaging.CollectedWasStored | tools/snapshot_info.py:142-146 | every name collected is that of an entry, with the value of the last entry of that name |
| StoragePaging.NoEntryLostIff | tools/snapshot_info.py:142-146 | no entry is lost exactly when the keys print distinctly, and then each has its value |
| AssetIds.IdReadBackIff | tools/asset.py:267-274 | an id is read back to its enum exactly when that is in range; pairs in range stay below 2^61 when the first part is below 2^28 |
| AssetIds.IdMeaning | tools/asset.py:267-274 | a token is its own id, a pair with a first part of 32 bits has bit 60 and its parts 32 bits apart; the address prefix is 32 ones above 128 bits |
| AssetIds.OutOfRangeCollides | tools/asset.py:272-273 | pairs and a token out of range that share an id with another asset |
| AssetIds.AddressKeepsPrefixIff | tools/peaq_eth_utils.py:92-94 | the address fits 160 bits with its prefix exactly when the id fits 128, and gives the id back |
| AssetIds.AddressRoundTrip | tools/peaq_eth_utils.py:92-94 | from enum to address and back |
| FixedArray.ProcessEncode | tools/monkey/monkey_patch_scale_info.py:5-55 | exactly which values are accepted for each width, and the bytes they give; single bytes always have the declared length; each error in its case |
| FixedArray.DigitMeaning | tools/monkey/monkey_patch_scale_info.py:13 | a digit is worth its place among the sixteen, in either case, and nothing else is a digit |
| FixedArray.ElementMeaning | tools/monkey/monkey_patch_scale_info.py:49-53 | the lowest byte of an element comes first, and it fits exactly when nothing is left after its width |
| FixedArray.FromHexLength | tools/monkey/monkey_patch_scale_info.py:13 | a hexadecimal text gives half as many bytes as it has characters that are no white space |
| FixedArray.ItemsRoundTrip | tools/monkey/monkey_patch_scale_info.py:49-55 | a fixed-width decoder undoes the list encoding |
| FixedArray.BytesAreItems | tools/monkey/monkey_patch_scale_info.py:49-55 | every byte string of the right length encodes exactly the list decoded from it |
| FixedArray.ByteFormsAgree | tools/monkey/monkey_patch_scale_info.py:10-26 | for single bytes list, bytes and text are encoded alike |
| FixedArray.ListLengthIff | tools/monkey/monkey_patch_scale_info.py:45-55 | a list has the declared length exactly when it has the declared number of items |
| FixedArray.WideLengthIff | tools/monkey/monkey_patch_scale_info.py:8-55 | when what is accepted for wider elements has the declared length: a text exactly if it holds no white space, a list exactly if it has the declared number of items, and a value that Python takes for false only if that number is 0 |
| FixedArray.BlanksAccepted | tools/monkey/monkey_patch_scale_info.py:32-43 | for an array of any size, of elements wider than a byte, a text of blanks is accepted and encodes to nothing |
| FixedArray.HexAgreesWithList | tools/monkey/monkey_patch_scale_info.py:29-55 | a list and the text of its encoding are encoded alike |

## Left out

- ReorgSubmit.Client.WaitForBlocks: the source waits without end; here a wait looks as often as the client's patience, any function of the request it begins with, allows, and giving up is a result of its own. `ReorgSubmit.PatienceIff` says on which chains some patience is always enough; nothing is said about a wait that never ends.
- ReorgSubmit.Client.WaitFinalization: bounded by the client's patience in the same way.
- ReorgSubmit.Client.SubmitExtrinsic: errors of the connection itself are not modelled.
- BatchRetry.BatchClient.LookBack: bounded by the client's patience in the same way, and so is BatchRetry.BatchClient.Execute; see `BatchRetry.RetryAnswers`.
- BatchRetry.BatchClient.Try: composing the batch and showing the receipt are library calls; they either succeed or count as the other errors.
- A chain whose best head goes back, as a parachain's can when its relay chain reorganises: the scan could then ask for a height that has no block.
- EvmRetry.EvmClient.WaitForTx: the wait for finality is bounded by the client's patience in the same way (`EvmRetry.PatienceIff`); a timeout is a number of looks.
- RewardSplit.CalculateReward: the rounding of `Decimal` to 28 digits is not modelled.
- Payouts.CheckReward: on a total that is off with a session reward of zero the source fails while printing the error; both failures are the same here.
- FeeBuckets.FeeRecorder.RecordExtrinsic: the early return for another node's address and the reading of the block.
- FixedArray.ProcessEncode: element types other than unsigned integers, for which the source checks no length, are not modelled.
- CallNames.ComposePrintsShape: an argument that is neither a call nor a list makes the printer fail; Python values that happen to iterate as something else are not distinguished.
- The check of collators against the validator set, the extrinsic tips of `get_all_tip_reward_in_block`, the decision which storage is ignored and the polling for an asset balance: single comparisons and sums over one answer of the node.
- Connection repair, printing, files and report writing, command lines, sleeping, key derivation and signatures.
- The pallets and contracts the tests exercise; their code is not in the repository.
