# Gravity Bridge, modelled and proved in Dafny

Gravity Bridge moves tokens between Ethereum and a Cosmos chain. The contract on Ethereum emits numbered events.
Validators vote each event into the state of the Cosmos chain. The Cosmos chain signs validator sets, batches of
transfers and logic calls, which relayers carry back to the contract. This project models the parts of that
protocol where a mistake loses money or stops the chain, and proves what they promise for every input and every run.

`dafny verify dfyconfig.toml` checks the whole project.

## What is modelled

- **Voting and batches** (`Quorum`, `Attestations`, `Ledger`, `Keeper`, `Voting`). Claims, the tally of one block, batch
  execution, cancellation, timeout and pruning. Votes are counted and never lost, so enough of them are heard. `Keeper.GravityKeeper` holds the loops of EndBlocker over mutable
  state. Each loop is proved equal to a specification function, and the theorems are about those functions.
- **Two chains together** (`TwoChain`, `DoubleSpend`, `TwoChainExample`). A state machine with the contract on one
  side and the keeper on the other. Its steps interleave freely: users send and cancel, anybody requests or submits
  batches and logic calls, honest validators vote the truth and others vote anything, governance resets the oracle,
  pauses the bridge and changes which tokens classify. A block halts exactly when the run of events it observes holds
  a logic call, for which there is no handler, or an event whose handler panics.
- **Slashing** (`Slashing`). One pass over the valsets, batches and logic calls that are due, and the watermarks
  over whole runs.
- **Validator sets** (`BridgePower`, `Valsets`, `ValsetRuns`, `ValsetEffects`, `ValsetExample`). Normalised power, creation when 5% of
  the power has moved, judgement, observation with the reward's classification, pruning.
- **The Ethereum oracle** (`Claims`, `History`, `Oracle`, `OracleLoop`, `OracleProgress`, `OracleExample`). Code of the search and of one loop
  iteration, and a machine in which every read of a chain is a step of its own, so that transactions may land
  late and rollbacks and crashes may come between any two reads.
- **Auctions** (`Sums`, `Bank`, `Auction`, `AuctionChecks`). The period rollover with the checks the source makes
  afterwards, over a bank whose books balance, and what those checks are worth.
- **Protobuf codecs** (`ByteStrings`, `ProtoWire`, `ProtoCodec`, `ProtoRoundTrip`, `ProtoRecords`, `ProtoBuffer`). Size, the buffer
  filled from its end and the decode loops, generic in the message schema. The six auction messages are instances.
- **Signed messages** (`Abi`, `AbiReader`, `SignedMessages`, `ContractMessages`). The ABI encoding of what validators
  sign, and a reader that takes it apart in the order of the contract's arguments.
- **Relayers** (`ValsetRelay`, `BatchRelay`, `CallRelay`). Which valset, batches and logic calls get submitted.
- `Sorting`, `Options` and `ContractLimits` hold what several modules share.

A panic of the Go or Rust code is a `halted` flag, a `Panic` outcome or `None`. Where the order in which a map or
store is walked does not matter, loops pick elements in an arbitrary order, so the proof covers all of them.

## Where a promise fails

Seven properties one would expect do not hold of the code. For each there is a lemma with a concrete case and a
theorem that says exactly when the property holds.

- *No double spend.* When a batch execution is observed for a token that does not classify, the handler returns an
  error, the event still counts as observed, and the batch stays stored. Its paid transfers return to the pool once
  the observed height passes its timeout or a later execution of the token is applied. `DoubleSpend.BlockSafeIff` says
  so for one block, from the state before it, and `DoubleSpend.NoDoubleSpendIff` for every run.
  `TwoChainExample.ExampleSpendsTwice` is a run from genesis in which it happens.
- *The chain follows the contract's valset.* After the observed valset is set, the handler classifies the reward. An
  error undoes the update and a reward token from Ethereum panics. `ValsetRuns.UpdateDecided`,
  `ValsetRuns.EveryRunKeepsInv` and `ValsetRuns.ObservedIsCurrentIff` give the conditions for one update, for halting
  and for ending at the contract's valset, and `ValsetExample.RewardsGetInTheWay` both cases.
- *Batch slashing does not halt the chain.* The watermark panics when it would move down, and batches come newest
  first. `Slashing.SlashingKeeper.BatchSlashing` halts exactly when the due batches are not in order of creation,
  `Slashing.BatchSlashingNeverHalts` shows that this cannot happen while the signing window does not shrink, and
  `Slashing.ShrinkingWindowHalts` is a case where it does.
- *Logic call slashing does not halt the chain.* It ignores its window except for the first blocks, so the first block
  above the window finds all earlier calls due at once, in store order. `Slashing.CallSlashingNeverHaltsIff` gives the
  condition for runs with a constant window and `Slashing.FirstCallBlockHalts` is a case.
- *A rollback is always noticed.* Between a resync and the first recorded event nonce the loop has nothing to compare
  with. `OracleLoop.RollbackDecided` says what follows from a rollback in each case, `OracleLoop.SyncedStaysIff` and
  `OracleLoop.SafeOnceRecorded` when the loop stays out of danger. `OracleExample.UnnoticedRollback` is a case, and
  `OracleExample.NoticedRollback` one that is noticed.
- *The auction checks never fire.* They do when a denom is taken off auction while its lot is open, unless the lot has
  a bid and the pool holds none of that denom: `Auction.AuctionKeeper.EndBlocker`, `Auction.StrandedLotExample`.
- *Greedy valset relaying makes progress.* The relayer does not know the contract's limit of one million nonces.
  `ValsetRelay.RelayAdvancesIff` gives the condition for one run, `ValsetRelay.RelaysReachLatestIff` for repeated runs,
  `ValsetRelay.RelaysReachLatest` one on the offers alone, and `ValsetRelay.OutOfReach` is a case.

Two places where the code and its comments differ follow the code. Logic call slashing ignores its signing window:
`Slashing.LogicCallsJudgedAtOnce` shows that, once caught up, a call is judged in the block that creates it. The search for the
current valset moves on to older windows when the newest update cannot be parsed, so `History.FindLatestValset`
finds the newest update exactly when that one can be parsed.

## Assumptions

- Honest validators hold at least 34% of the power in every tally, and the staking total is the sum of powers.
- Different claims have different hashes. Ethereum blocks that count as safe are final.
- The contract emits consecutive event nonces at non-decreasing heights, starting with the deployment event.
- Every confirm in the store is from a registered orchestrator, and the staking module knows the validators it lists.
- The bank supply equals the sum of balances, and the mint denom is the native denom.
- Lengths of byte strings fit a signed 64-bit number where the Go code keeps them in one.
- Minting a valset reward and burning the vouchers of an executed batch succeed.

## Model

| member | source | states |
|---|---|---|
| `Quorum.QuorumsIntersect` | module/x/gravity/keeper/attestation.go:113-173 | two vote lists that each pass the 66% threshold share a validator |
| `Quorum.QuorumHasHonestVote` | module/x/gravity/keeper/attestation.go:113-173 | a passing vote list holds an honest vote when honest validators have more than a third of the power |
| `Quorum.VotePowerIsSetPower` | module/x/gravity/keeper/attestation.go:131-165 | the running sum over distinct votes is the power of the set of voters |
| `Quorum.VotePowerGrows` | module/x/gravity/keeper/attestation.go:131-165 | more votes never lower the power, so stopping at the threshold is safe |
| `Quorum.QuorumIff` | module/x/gravity/keeper/attestation.go:113-173 | truncating the threshold makes no difference: passing is holding more than 66% of the power |
| `Quorum.HonestMajorityIff` | module/x/gravity/keeper/attestation.go:113-173 | what is assumed of honest power is at least 34% |
| `Ledger.CancelNeverPanics` | module/x/gravity/keeper/batch.go:245-270 | cancelling a stored batch of a conserved ledger finds every pool slot free |
| `Ledger.CancelConserves` | module/x/gravity/keeper/batch.go:245-270 | cancelling moves exactly the batch's transfers back to the pool and loses none |
| `Ledger.ExecutedConserves` | module/x/gravity/keeper/batch.go:112-155 | an execution burns the batch, cancels every older batch of that token only, and conserves all transfers |
| `Ledger.ExecutedExactly` | module/x/gravity/keeper/batch.go:112-155 | batch by batch and transfer by transfer: exactly the batches of the token up to the executed one are gone, the older ones' transfers are pooled, the executed one's burned |
| `Ledger.ExecutedPanicsIff` | module/x/gravity/keeper/batch.go:112-131 | an execution panics if and only if its batch is not stored under that token or was executed at or after its timeout |
| `Ledger.CleanupExactly` | module/x/gravity/abci.go:156-181 | exactly the batches with a timeout below the height are gone and their transfers are pooled |
| `Ledger.SendConserves` | module/x/gravity/keeper/pool.go:22-93 | a new transfer gets an id no other has, joins the pool, and nothing else changes place |
| `Ledger.RefundConserves` | module/x/gravity/keeper/pool.go:99-154 | a transfer outside the pool is not refunded; one in it leaves the pool for the refunds and all transfers are conserved |
| `Ledger.BuildConserves` | module/x/gravity/keeper/batch.go:26-84 | building a batch moves transfers from the pool into a batch under the next nonce with the given token, timeout and height |
| `Attestations.AttestKeepsOneVotePerNonce` | module/x/gravity/keeper/attestation.go:25-111 | a validator votes at most once per nonce, across all competing claims |
| `Attestations.ResetKeepsOneVotePerNonce` | module/x/gravity/keeper/governance_proposals.go:71-123 | resetting the oracle keeps one vote per nonce |
| `Attestations.PruneKeepsOneVotePerNonce` | module/x/gravity/abci.go:594-633 | pruning keeps one vote per nonce |
| `Attestations.PruneKeepsUnobserved` | module/x/gravity/abci.go:594-633 | exactly what is more than 1000 events behind is deleted, hence nothing unobserved |
| `Attestations.TallyIgnoresHistory` | module/x/gravity/abci.go:113-154 | a tally does not depend on attestations at or below the observed nonce |
| `Attestations.OnlyOnePasses` | module/x/gravity/abci.go:128-152 | at most one attestation per nonce can pass |
| `Attestations.TallyIsExact` | module/x/gravity/abci.go:113-154 | the observed nonce advances over exactly the longest run of passing nonces, one attestation is observed at each, nothing else is touched, and nothing happens while paused |
| `Attestations.TallyIgnoresOrder` | module/x/gravity/abci.go:128-152 | the result is the same for any order of the attestations at a nonce |
| `Keeper.GravityKeeper.CancelOutgoingTxBatch` | module/x/gravity/keeper/batch.go:245-270 | the loop that returns transfers one by one agrees with the specification, panic included |
| `Keeper.GravityKeeper.OutgoingTxBatchExecuted` | module/x/gravity/keeper/batch.go:112-155 | the loop over all batches cancels exactly the superseded ones and burns the executed one |
| `Keeper.GravityKeeper.CleanupTimedOutBatches` | module/x/gravity/abci.go:156-181 | exactly the batches whose timeout is below the observed height are cancelled |
| `Keeper.GravityKeeper.ProcessAttestation` | module/x/gravity/keeper/attestation.go:176-195 | a handler error leaves the state as it was; a logic call or a panicking handler halts |
| `Keeper.GravityKeeper.TryAttestation` | module/x/gravity/keeper/attestation.go:113-173 | the vote loop with its early exit observes exactly the attestations that have a quorum |
| `Keeper.GravityKeeper.VisitNonce` | module/x/gravity/abci.go:128-152 | the loop over one nonce's attestations agrees with trying its first passing one |
| `Keeper.GravityKeeper.AttestationTally` | module/x/gravity/abci.go:113-154 | the loop over all sorted nonces equals walking up from the observed nonce |
| `Keeper.GravityKeeper.PruneOldAttestations` | module/x/gravity/abci.go:594-633 | deletes exactly what the cutoff allows |
| `Keeper.GravityKeeper.EndBlocker` | module/x/gravity/abci.go:14-27 | tally, then cleanup, then pruning, as one specification function |
| `Keeper.GravityKeeper.Attest` | module/x/gravity/keeper/attestation.go:25-111 | a claim is accepted if and only if it is for the next nonce, and then recorded |
| `Keeper.GravityKeeper.PruneAttestationsAfterNonce` | module/x/gravity/keeper/governance_proposals.go:71-123 | the loops that delete attestations, collect their voters and send them back agree with the specification |
| `Voting.VoteIsCounted` | module/x/gravity/keeper/attestation.go:25-111 | a claim for the next nonce ends on the one attestation of that claim, with its earlier voters and the new one; nothing else changes; any other claim is refused |
| `Voting.EnoughIsObserved` | module/x/gravity/keeper/attestation.go:113-173 | a claim for the next nonce whose voters have more than the required power is the one the next tally observes |
| `Voting.MajorityIsObserved` | module/x/gravity/keeper/attestation.go:25-173 | voters with more than the required power, voting one after the other for the next event, get it observed |
| `Voting.ResetForgets` | module/x/gravity/keeper/governance_proposals.go:71-123 | an effective reset deletes exactly the attestations above the cutoff and takes every validator to the lesser of its nonce and the cutoff |
| `Voting.EveryRunKeepsVotes` | module/x/gravity/keeper/attestation.go:25-111 | in every run of the two chains every vote on an event still to be observed is there |
| `Voting.EveryMajorityIsHeard` | module/x/gravity/abci.go:113-154 | in every run the next block of an active bridge observes all events that honest validators with more than the required power have claimed, unless one of the events it observes is fatal |
| `Voting.BlockLeaves` | module/x/gravity/abci.go:14-27 | after a block no stored batch has timed out, exactly the attestations more than 1000 events behind are gone, and the next event has not passed |
| `TwoChain.StepKeepsInv` | module/x/gravity/abci.go:14-27 | every step of either chain keeps the two-chain invariant (gap-free true observation, batches executed in time, ledger conserved) or is a block that halts on a fatal event |
| `TwoChain.TallyKeepsInv` | module/x/gravity/abci.go:113-154 | a tally halts if and only if its run of passing nonces reaches a fatal event |
| `TwoChain.EveryRunKeepsInv` | module/x/gravity/abci.go:14-27 | in every run a block halts if and only if the run of events it observes holds a logic call or an event whose handler panics; nothing else halts it |
| `TwoChain.EndBlockKeepsInv` | module/x/gravity/abci.go:14-27 | the same for the whole block |
| `TwoChain.StepIgnoresHistory` | module/x/gravity/abci.go:594-633 | no step of either chain depends on attestations that were left behind |
| `TwoChain.HistoryNeverMatters` | module/x/gravity/abci.go:594-633 | two worlds that differ in such attestations only stay so in every run, so pruning is never noticed |
| `DoubleSpend.SubmitPaysOnce` | solidity/contracts/Gravity.sol:344-441 | a batch the contract accepts pays transfers no earlier execution has paid |
| `DoubleSpend.ObserveOne` | module/x/gravity/keeper/attestation_handler.go:228-260 | what one observation does to any execution: applied, left with its batch stored, or returned by a later execution of its token |
| `DoubleSpend.TallyDecides` | module/x/gravity/abci.go:113-154 | what a whole tally does to any execution, told from the state before it |
| `DoubleSpend.BlockDecides` | module/x/gravity/abci.go:14-27 | an execution observed without being applied keeps its batch stored or, exactly when superseded or timed out, returns to the pool |
| `DoubleSpend.BlockSafeIff` | module/x/gravity/keeper/attestation_handler.go:234-251 | a block leaves no double spend if and only if no unapplied execution returns in it, a condition on the state before the block |
| `DoubleSpend.NoDoubleSpendIff` | module/x/gravity/abci.go:156-181 | in every run no state shows a double spend if and only if no block returns an execution |
| `DoubleSpend.ClassifyingRunIsSafe` | module/x/gravity/keeper/attestation_handler.go:234-251 | while every observed execution is of a token that classifies, all are applied and nothing is spent twice |
| `TwoChainExample.ExampleIsRun` | module/x/gravity/keeper/attestation_handler.go:234-251 | a concrete sequence of thirteen steps is a run from genesis |
| `TwoChainExample.ExampleSpendsTwice` | module/x/gravity/keeper/attestation_handler.go:234-251 | that run ends with a paid transfer in the pool |
| `TwoChainExample.FirstBlock` | module/x/gravity/abci.go:14-27 | its first block observes the deployment, so a height is known when the batch is built |
| `Slashing.SlashingKeeper.PrepConfirms` | module/x/gravity/abci.go:213-231 | the confirm map holds a validator if and only if a linear search of the list finds a confirm by it |
| `Slashing.SlashingKeeper.Punish` | module/x/gravity/abci.go:270-298 | slashes and jails unless already jailed; jailing is never asked of a jailed validator |
| `Slashing.SlashingKeeper.SlashBonded` | module/x/gravity/abci.go:251-300 | the bonded loop punishes exactly the unjailed bonded validators that started before the item and have no confirm |
| `Slashing.SlashingKeeper.SlashUnbonding` | module/x/gravity/abci.go:302-359 | the same for unbonding validators inside their slashing window |
| `Slashing.SlashingKeeper.UnslashedValsets` | module/x/gravity/keeper/keeper_valset.go:200-232 | the due valsets in nonce order |
| `Slashing.SlashingKeeper.ValsetSlashing` | module/x/gravity/abci.go:233-363 | those jailed are exactly those negligent on some due valset, once each, and the watermark is the largest due nonce |
| `Slashing.SlashingKeeper.UnslashedBatches` | module/x/gravity/keeper/batch.go:356-366 | the due batches in store order |
| `Slashing.SlashingKeeper.UnslashedLogicCalls` | module/x/gravity/keeper/keeper.go:381-392 | every call above the watermark, whatever the window |
| `Slashing.SlashingKeeper.SlashInOrder` | module/x/gravity/abci.go:445-495 | succeeds if and only if creation heights do not decrease along the list |
| `Slashing.SlashingKeeper.BatchSlashing` | module/x/gravity/abci.go:424-496 | halts if and only if due batches are out of order; otherwise jails exactly the negligent ones |
| `Slashing.SlashingKeeper.LogicCallSlashing` | module/x/gravity/abci.go:521-592 | the same for logic calls |
| `Slashing.SlashingKeeper.Slash` | module/x/gravity/abci.go:101-111 | over all three loops nobody is slashed or jailed twice, and the punished are exactly the free validators that owe some signature |
| `Slashing.OnePenaltyEachHolds` | module/x/gravity/abci.go:101-111 | penalties of the three loops join to one per validator, for the first kind it owes |
| `Slashing.BatchSlashingNeverHalts` | module/x/gravity/keeper/batch.go:335-366 | in every run in which the window does not shrink, no block halts and each batch is judged in the block after its window |
| `Slashing.JudgedOnce` | module/x/gravity/abci.go:424-496 | in every run with an unchanged window each stored batch is due in the block right after its window and in no other |
| `Slashing.ShrinkingWindowHalts` | module/x/gravity/keeper/batch.go:335-343 | a shrinking window makes batches of two heights due, newest first |
| `Slashing.LogicCallsJudgedAtOnce` | module/x/gravity/keeper/keeper.go:381-392 | in every run above a constant window, once caught up, no block halts and every call is due in the block that creates it and in no other |
| `Slashing.CallSlashingNeverHaltsIff` | module/x/gravity/keeper/keeper.go:358-392 | a run that starts within a constant window never halts if and only if the first block above the window finds the calls above the watermark in order of creation |
| `Slashing.FirstCallBlockHalts` | module/x/gravity/keeper/keeper.go:358-392 | two calls stored newest first: nothing is due up to the window, and the next block halts |
| `BridgePower.PowerDifferences` | module/x/gravity/types/validation.go:132-147 | the map filled in two passes holds the signed difference for every key of either set |
| `BridgePower.PowerDiff` | module/x/gravity/types/validation.go:132-156 | the loop over the map yields the total change of power |
| `BridgePower.DriftBoundsCoalition` | module/x/gravity/types/validation.go:118-156 | no coalition's power changes by more than the total change |
| `BridgePower.DriftHasWitness` | module/x/gravity/types/validation.go:118-156 | some coalition's power has changed by at least half the total change |
| `BridgePower.NormalisedTotal` | module/x/gravity/keeper/keeper_valset.go:331-348 | normalised powers sum to at most 2^32 and lose less than one unit for each validator |
| `Valsets.ValsetKeeper.CollectPowers` | module/x/gravity/keeper/keeper_valset.go:259-295 | exactly the validators with an Ethereum key are counted, and a shared key is found |
| `Valsets.ValsetKeeper.CurrentValset` | module/x/gravity/keeper/keeper_valset.go:259-348 | when there is no set, an error (a shared key, no power, an unknown reward denom) or a set, and its members, reward and total |
| `Valsets.ValsetKeeper.HandleValsetUpdated` | module/x/gravity/keeper/attestation_handler.go:363-459 | the handler with its two panics and two errors; an error undoes what it did |
| `Valsets.ValsetKeeper.CreateValsets` | module/x/gravity/abci.go:29-73 | creates a valset exactly when there is none, somebody unbonds, or more than 5% has moved |
| `Valsets.ValsetKeeper.SetValsetRequest` | module/x/gravity/keeper/keeper_valset.go:29-73 | stores the next nonce or halts without a change |
| `Valsets.ValsetKeeper.PruneValsets` | module/x/gravity/abci.go:75-99 | deletes exactly the valsets below the observed nonce that are older than the window |
| `ValsetRuns.JudgeKeeps` | module/x/gravity/abci.go:233-248 | after slashing, everything old enough to be pruned has been judged |
| `ValsetRuns.NextUpdate` | module/x/gravity/keeper/attestation_handler.go:378-395 | the next update is always of a stored valset and tells it truly |
| `ValsetRuns.UpdateDecided` | module/x/gravity/keeper/attestation_handler.go:397-451 | an update halts the chain if and only if it pays in a token from Ethereum, is dropped if and only if it pays in a token that does not classify, and otherwise becomes the observed valset |
| `ValsetRuns.ObserveKeeps` | module/x/gravity/abci.go:113-154 | the observations of a block halt if and only if one of them is fatal |
| `ValsetRuns.CreateKeeps` | module/x/gravity/abci.go:29-73 | creation halts if and only if no set can be made, an unknown reward denom included, and leaves a fresh newest valset |
| `ValsetRuns.PruneKeeps` | module/x/gravity/abci.go:75-99 | nothing unjudged is deleted, nor the observed valset nor any later one |
| `ValsetRuns.EndBlockKeeps` | module/x/gravity/abci.go:14-27 | a block halts if and only if it observes a fatal reward or no set can be made; otherwise the newest stored valset exists, has survived pruning and is within 5% of the current set |
| `ValsetRuns.EveryRunKeepsInv` | module/x/gravity/abci.go:75-99 | in every run every deleted valset was judged, only valsets below the observed one are gone, and the condition for halting is exact |
| `ValsetRuns.ObservedIsCurrentIff` | module/x/gravity/keeper/attestation_handler.go:363-459 | once the whole log is observed, the observed valset is the contract's if and only if the block that observed the last update did not find its reward unclassified |
| `ValsetRuns.ObservedSomewhere` | module/x/gravity/keeper/attestation_handler.go:363-459 | every applied update has the block that observed it |
| `ValsetRuns.DroppedIff` | module/x/gravity/keeper/attestation_handler.go:397-451 | in every run an update is dropped if and only if the block that observed it found its reward unclassified |
| `ValsetExample.RewardsGetInTheWay` | module/x/gravity/keeper/attestation_handler.go:401-451 | two runs from genesis: one halts, the other leaves the observed valset behind |
| `ValsetRuns.NewestValsetIsClose` | module/x/gravity/abci.go:29-73 | every coalition's power in the newest valset is within 5% of its current power |
| `ValsetEffects.BlockExactly` | module/x/gravity/abci.go:14-99 | a block judges exactly the valsets whose window is over, stores a new one if and only if there is none, somebody unbonds or more than 5% has moved, and deletes exactly those below the observed one that are older than the window |
| `ValsetEffects.NewValsetHasAReason` | module/x/gravity/abci.go:29-73 | when a block stores a new valset over an older one and nobody unbonds, some coalition's power has moved by more than 2.5% |
| `ValsetEffects.BlockHappens` | module/x/gravity/abci.go:14-99 | every block has exactly one outcome |
| `Claims.Index` | orchestrator/cosmos_gravity/src/send.rs:245-264 | indexing fails if and only if two claims share a nonce, and otherwise keeps every claim |
| `Claims.SendEthereumClaims` | orchestrator/cosmos_gravity/src/send.rs:225-288 | the messages are the oldest claims in nonce order, as many as fit in 1000 |
| `Claims.UnbrokenRange` | orchestrator/cosmos_gravity/src/send.rs:266-283 | an unbroken range of claims goes out as an unbroken range from the same start |
| `History.FindEvent` | orchestrator/orchestrator/src/oracle_resync.rs:120-203 | a loop over one kind finds the event with the wanted nonce if it is there and parses |
| `History.ScanValsets` | orchestrator/orchestrator/src/oracle_resync.rs:205-240 | newest first, so the deployment event never hides a later one |
| `History.GetLastCheckedBlock` | orchestrator/orchestrator/src/oracle_resync.rs:22-247 | terminates, returns the block of the last relayed event or of the deployment, and panics if and only if that event is not visible and readable |
| `History.FindLatestValset` | orchestrator/relayer/src/find_latest_valset.rs:14-68 | takes the newest update of the first window, going back, whose newest update can be parsed; that is the newest of all if and only if the newest of all can be parsed |
| `OracleLoop.StepKeepsInv` | orchestrator/orchestrator/src/main_loop.rs:163-272 | every step keeps the cursor at or below the first event above what was recorded |
| `OracleLoop.EveryRunKeepsInv` | orchestrator/orchestrator/src/main_loop.rs:163-272 | and so does every run, with late transactions, rollbacks and crashes |
| `OracleLoop.ReadyContinues` | orchestrator/orchestrator/src/ethereum_event_watcher.rs:35-252 | from any state whose cursor has passed claimed events only, the same holds in every continuation without rollbacks, and every transaction starts at the next event |
| `OracleLoop.NeverSkips` | orchestrator/orchestrator/src/ethereum_event_watcher.rs:35-252 | without rollbacks the cursor never passes the first unclaimed event and every transaction starts right at it |
| `OracleLoop.AcceptedInOrder` | module/x/gravity/keeper/attestation.go:25-60 | in every run the claims accepted since the last rollback are consecutive and end at the nonce |
| `OracleLoop.SyncedIsNeverLost` | orchestrator/orchestrator/src/main_loop.rs:163-166 | in a synced state either the chain's nonce is below the recorded one or the cursor is safe |
| `OracleLoop.SyncedStaysIff` | orchestrator/orchestrator/src/main_loop.rs:217-262 | from a synced state, up to a restart, the loop is synced or resyncing all the time if and only if no resync finds the nonce risen by more than one |
| `OracleLoop.SafeOnceRecorded` | orchestrator/orchestrator/src/main_loop.rs:163-266 | once an iteration has recorded a nonce, whether it found nothing new or claimed events, with no rollback since the process started, up to the next restart the loop is resyncing, alarmed or ready, unless a resync finds the nonce risen by more than one |
| `OracleLoop.LostStays` | orchestrator/orchestrator/src/main_loop.rs:217-272 | a lost loop stays lost as long as no older transaction is accepted: it never resyncs, the nonce stays and nothing it sends starts at the next event |
| `OracleLoop.AlarmIsHeard` | orchestrator/orchestrator/src/main_loop.rs:217-241 | with the nonce below the recorded event and unclaimed events passed, the next read of the nonce resyncs |
| `OracleLoop.ResyncIsReady` | orchestrator/orchestrator/src/main_loop.rs:231-240 | whatever the nonce has become, a resync leaves nothing unclaimed before the cursor |
| `OracleLoop.RollbackDecided` | orchestrator/orchestrator/src/main_loop.rs:217-272 | for every rollback of a running loop: unnoticed for good or noticed at the next read, in every continuation without restart, lift, further rollback or acceptance of an older transaction, or harmless in every continuation without further rollback, with the condition for each |
| `OracleLoop.LostOnlyBeforeRecording` | orchestrator/orchestrator/src/main_loop.rs:163-166 | in any run the loop is lost only before it has recorded a large enough nonce |
| `OracleLoop.Clamp` | orchestrator/orchestrator/src/ethereum_event_watcher.rs:50-56 | a search reaches the safe block or spans exactly 5000 blocks, and never more than either |
| `OracleProgress.SendsExactly` | orchestrator/orchestrator/src/ethereum_event_watcher.rs:126-215 | a search sends at most one transaction, which holds an unclaimed event if and only if that lies in the searched range and is among the next 1000 |
| `OracleProgress.NextEventIsSent` | orchestrator/orchestrator/src/ethereum_event_watcher.rs:35-252 | in every run without rollbacks since the start, after one search for every 5000 blocks up to the next event and one more, a transaction starting at that event has been sent |
| `OracleProgress.EveryEventIsClaimed` | orchestrator/orchestrator/src/main_loop.rs:217-272 | in every such run event `k` is claimed after at most one recording iteration for every 5000 blocks up to it and one for every event before it, however often reads fail and however late transactions land |
| `OracleProgress.CursorAfterClaim` | orchestrator/orchestrator/src/ethereum_event_watcher.rs:216-252 | once a claim is recorded the cursor stands at the block of the last claimed event |
| `OracleExample.UnnoticedRollback` | orchestrator/orchestrator/src/main_loop.rs:144-166 | a run whose rollback right after the start goes unnoticed |
| `OracleExample.NoticedRollback` | orchestrator/orchestrator/src/main_loop.rs:217-241 | a run whose rollback after the loop's own claim is noticed at the next read, and the cursor after it |
| `OracleExample.ClaimIsRecorded` | orchestrator/orchestrator/src/main_loop.rs:254-266 | that run records its claim and is safe from there on |
| `Oracle.NewEvents` | orchestrator/gravity_utils/src/types/ethereum_events.rs:272-289 | parsing and filtering keep exactly the events newer than the last nonce |
| `Oracle.BlockForNonce` | orchestrator/gravity_utils/src/types/ethereum_events.rs:290-298 | the block of the event with that nonce, if listed |
| `Oracle.CheckForNewEvents` | orchestrator/orchestrator/src/ethereum_event_watcher.rs:35-252 | the result of a check in every case, and that what is sent is an unbroken range right above the last claimed or passed event, up to the end of the searched range or 1000 events |
| `Oracle.CheckPassesNothing` | orchestrator/orchestrator/src/ethereum_event_watcher.rs:109-252 | a check that succeeds has read every event between its start and the block it returns and all of them are claimed; an unreadable one in the searched range makes it fail |
| `Oracle.EthOracle.Resume` | orchestrator/orchestrator/src/main_loop.rs:152-166 | start-up state |
| `Oracle.EthOracle.Iterate` | orchestrator/orchestrator/src/main_loop.rs:217-272 | one iteration, given what each read returned: the two fields and what is sent |
| `Oracle.CheckIsMachine` | orchestrator/orchestrator/src/ethereum_event_watcher.rs:126-252 | a check is what the machine does in its matching and rechecking steps |
| `Oracle.CheckSendsAsMachine` | orchestrator/orchestrator/src/ethereum_event_watcher.rs:126-215 | what a check sends is the transaction the machine sends |
| `Oracle.ResumeIsMachine` | orchestrator/orchestrator/src/main_loop.rs:152-166 | start-up and resync find the block of the event to resume at if and only if it is visible, and otherwise end the process, as the machine's steps do |
| `Bank.MoveConserves` | module/x/auction/keeper/keeper.go:109-185 | a transfer conserves the total of every denom |
| `Auction.CloseLotEffect` | module/x/auction/keeper/auction.go:231-312 | what closing a lot moves, account by account |
| `Auction.FundsSuffice` | module/x/auction/keeper/auction.go:231-312 | from a balanced module account every transfer of the closing loop is covered |
| `Auction.ClosedExtends` | module/x/auction/abci.go:67-93 | closing one more lot, in any order |
| `Auction.LotCheckedIff` | module/x/auction/abci.go:186-226 | the checks on a closed lot pass if and only if it is not stranded |
| `Auction.BalancesCheckedIff` | module/x/auction/abci.go:157-250 | all balance checks pass if and only if no closed lot is stranded |
| `Auction.SupplyCheckPasses` | module/x/auction/abci.go:121-153 | the supply check always passes |
| `Auction.NewLotsBalanced` | module/x/auction/keeper/invariants.go:39-85 | the module account holds exactly the new lots |
| `Auction.AuctionKeeper.CloseAuctionWithWinner` | module/x/auction/keeper/auction.go:231-284 | pays out, burns or forwards the bid; fails exactly without a lot, a bid or the funds |
| `Auction.AuctionKeeper.CloseAuctionNoWinner` | module/x/auction/keeper/auction.go:287-312 | returns the lot to the pool; fails exactly without a lot, with a bid or without the funds |
| `Auction.AuctionKeeper.EndAuctionPeriod` | module/x/auction/abci.go:67-93 | closes every lot in any order, no transfer fails, and the books balance |
| `Auction.AuctionKeeper.CreateNewAuctionPeriod` | module/x/auction/keeper/auction_period.go:12-90 | when a new period is accepted |
| `Auction.AuctionKeeper.CreateAuctionsForAuctionPeriod` | module/x/auction/keeper/auction_period.go:92-140 | one lot for each auctionable holding, the rest to the community pool, fresh ids |
| `Auction.AuctionKeeper.AssertBalanceChanges` | module/x/auction/abci.go:157-250 | the loop that tallies the bids computes the declarative check; without a rollover nothing may have changed |
| `Auction.AuctionKeeper.RollOver` | module/x/auction/abci.go:48-109 | no step of the rollover fails, and the balance checks on its outcome pass if and only if no closing lot is stranded |
| `AuctionChecks.SupplyCheckedIff` | module/x/auction/abci.go:121-153 | the supply check passes if and only if no supply has grown and only the native one has shrunk, by burning |
| `AuctionChecks.UntouchedIff` | module/x/auction/abci.go:166-183 | without a rollover the check passes if and only if neither module account has changed in any denom |
| `AuctionChecks.FaultsAreCaught` | module/x/auction/abci.go:157-250 | no outcome with other amounts in the pool, the module account or the winners' accounts passes the checks |
| `AuctionChecks.UnbalancedIsCaught` | module/x/auction/abci.go:186-190 | nor does one from a module account that did not hold exactly the lots and bids |
| `Auction.AuctionKeeper.EndBlocker` | module/x/auction/abci.go:15-109 | from a good state the rollover halts if and only if a closing lot is stranded; every account and the supply change exactly as stated and the state is good again |
| `Auction.StrandedLotExample` | module/x/auction/abci.go:217-226 | a good state whose rollover cannot pass the checks |
| `ProtoWire.VarintRoundTrip` | module/api/auction/v1/msgs.pulsar.go:434-449 | reading a written varint gives the number back, whatever follows |
| `ProtoWire.VarintShortest` | module/api/auction/v1/msgs.pulsar.go:434-449 | writing back what was read never takes more bytes |
| `ProtoWire.VarintEnds` | module/api/auction/v1/msgs.pulsar.go:434-449 | a varint is read if and only if one of the first ten bytes ends it |
| `ProtoWire.VarintValue` | module/api/auction/v1/msgs.pulsar.go:434-449 | it takes the bytes up to the first below 128 and stands for their groups of seven bits, lowest first, modulo 2^64 |
| `ProtoWire.SkipExtends` | module/api/auction/v1/msgs.pulsar.go:547-563 | the length of a skipped record does not depend on what follows |
| `ProtoCodec.DecodeConcat` | module/api/auction/v1/msgs.pulsar.go:419-570 | if `a` decodes, decoding `a + b` is decoding `b` into the result of `a` |
| `ProtoRoundTrip.FieldRoundTrip` | module/api/auction/v1/msgs.pulsar.go:380-416 | every kind of field is read back from its record whatever was there before: a number or string that is set replaces it, messages are added behind |
| `ProtoRoundTrip.NumberReplaces` | module/api/auction/v1/msgs.pulsar.go:458-476 | a record of a number replaces any number that was there, also by zero |
| `ProtoRoundTrip.TextReplaces` | module/api/auction/v1/msgs.pulsar.go:477-508 | a record of a string replaces any string that was there, also by the empty one |
| `ProtoRoundTrip.ItemsRoundTrip` | module/api/auction/v1/msgs.pulsar.go:1323-1340 | repeated messages are added in order behind those that were there |
| `ProtoRoundTrip.UnknownRoundTrip` | module/api/auction/v1/msgs.pulsar.go:547-563 | unknown fields are kept byte for byte |
| `ProtoRoundTrip.RoundTrip` | module/api/auction/v1/msgs.pulsar.go:332-570 | unmarshalling what was marshalled gives the message back |
| `ProtoRoundTrip.DecodeOver` | module/api/auction/v1/msgs.pulsar.go:419-570 | unmarshalling into a message that is not empty: set fields replace, repeated and unknown ones are added |
| `ProtoRoundTrip.LastOneWins` | module/api/auction/v1/msgs.pulsar.go:419-570 | two encodings read one after the other: each number and string of the second where it is set, of the first where it is not |
| `ProtoRoundTrip.AuctionMessagesRoundTrip` | module/api/auction/v1/auction.pulsar.go:289-457 | the same for each of the six auction messages |
| `ProtoRoundTrip.DecodeShrinks` | module/api/auction/v1/msgs.pulsar.go:1356-1484 | decoding adds at most the input's length to the encoded size |
| `ProtoRoundTrip.DecodeValid` | module/api/auction/v1/msgs.pulsar.go:419-570 | whatever decodes is a valid message |
| `ProtoRoundTrip.NormalForm` | module/api/auction/v1/msgs.pulsar.go:332-570 | any input that decodes has a normal form that decodes alike and is no longer |
| `ProtoRoundTrip.WrongTagIsRefused` | module/api/auction/v1/msgs.pulsar.go:450-461 | a known field under another wire type and field number zero are errors |
| `ProtoRoundTrip.LongLengthIsRefused` | module/api/auction/v1/msgs.pulsar.go:496-506 | a length that is negative as a signed number or runs past the end is an error |
| `ProtoRoundTrip.TruncatedIsRefused` | module/api/auction/v1/msgs.pulsar.go:462-508 | a record cut short anywhere is an error |
| `ProtoRecords.SkipsOneRecord` | module/api/auction/v1/msgs.pulsar.go:547-563 | skipping passes exactly one record of any wire type, nested groups included, whatever follows |
| `ProtoRecords.SkipRefuses` | module/api/auction/v1/msgs.pulsar.go:547-563 | unassigned wire types, the end of an unopened group and short payloads are errors |
| `ProtoRecords.UnknownRecordIsKept` | module/api/auction/v1/msgs.pulsar.go:547-563 | a record of a field the schema does not have is kept byte for byte |
| `ProtoRecords.IllegalFieldIsRefused` | module/api/auction/v1/msgs.pulsar.go:450-456 | a field number that is not positive as a signed 32-bit number is an error |
| `ProtoBuffer.SizeIsLength` | module/api/auction/v1/msgs.pulsar.go:333-366 | the computed size is the number of bytes written |
| `ProtoBuffer.EncodeVarint` | module/api/auction/v1/msgs.pulsar.go:387-396 | writes a varint right before an offset and nothing behind it |
| `ProtoBuffer.WriteDelimited` | module/api/auction/v1/msgs.pulsar.go:397-403 | writes payload, length and tag right before an index |
| `ProtoBuffer.WriteItems` | module/api/auction/v1/msgs.pulsar.go:1323-1340 | the backward loop over messages leaves them in order |
| `ProtoBuffer.Marshal` | module/api/auction/v1/msgs.pulsar.go:368-418 | the index ends at exactly 0 and the buffer holds the encoding |
| `ProtoBuffer.ReadVarintAt` | module/api/auction/v1/msgs.pulsar.go:434-449 | the shift loop computes the varint modulo 2^64 and reads nothing outside the data |
| `ProtoBuffer.SkipAt` | module/api/auction/v1/msgs.pulsar.go:547-563 | the group-counting loop finds the end of a record |
| `ProtoBuffer.StepAt` | module/api/auction/v1/msgs.pulsar.go:431-563 | one pass of the decode loop |
| `ProtoBuffer.Unmarshal` | module/api/auction/v1/msgs.pulsar.go:419-570 | the loop ends on any input and computes the specified decoding |
| `ProtoBuffer.MarshalThenUnmarshal` | module/api/auction/v1/msgs.pulsar.go:332-570 | filling a buffer with a valid message and reading it back gives the message |
| `Abi.EncodingInjective` | orchestrator/ethereum_gravity/src/message_signatures.rs:11-27 | token lists of one shape with equal encodings are equal, whatever the lengths inside |
| `Abi.TailFront` | orchestrator/ethereum_gravity/src/message_signatures.rs:78-90 | tails are self-delimiting |
| `AbiReader.ReadsBack` | orchestrator/ethereum_gravity/src/message_signatures.rs:11-90 | read by position and by following offsets, every argument of an encoding is what was encoded |
| `AbiReader.NoSlack` | orchestrator/ethereum_gravity/src/message_signatures.rs:11-90 | each tail begins where the one before it ends, the first right behind the heads, and nothing follows the last |
| `AbiReader.PaddingIsZero` | orchestrator/ethereum_gravity/src/message_signatures.rs:78-90 | byte strings are filled up with zeros |
| `SignedMessages.ToArrays` | orchestrator/gravity_utils/src/types/valsets.rs:269-277 | the two parallel lists of a valset |
| `SignedMessages.CheckpointValues` | orchestrator/gravity_utils/src/types/batches.rs:51-67 | the three parallel lists of a batch |
| `SignedMessages.EncodeValsetConfirm` | orchestrator/ethereum_gravity/src/message_signatures.rs:11-27 | the valset message, built from its lists, is the specified one |
| `SignedMessages.EncodeTxBatchConfirm` | orchestrator/ethereum_gravity/src/message_signatures.rs:39-51 | the batch message, built from its lists, is the specified one |
| `SignedMessages.EncodeLogicCallConfirm` | orchestrator/ethereum_gravity/src/message_signatures.rs:63-90 | the loops build the specified message |
| `SignedMessages.Unambiguous` | orchestrator/ethereum_gravity/src/message_signatures.rs:11-90 | two signed messages of any kinds have equal bytes if and only if they are the same message for the same bridge, up to a missing reward token and padding |
| `ContractMessages.ValsetIsCheckpoint` | solidity/contracts/Gravity.sol:184-204 | read in the order of the contract's arguments, a signed valset gives back its id, method name, nonce, members with their powers, reward and token |
| `ContractMessages.BatchIsSubmitted` | solidity/contracts/Gravity.sol:402-414 | a signed batch gives back its id, method name, amounts, destinations, fees, nonce, token and timeout, each at its place |
| `ContractMessages.LogicCallIsSubmitted` | solidity/contracts/Gravity.sol:495-510 | a signed logic call gives back every argument at its place |
| `SignedMessages.FixedInjective` | orchestrator/ethereum_gravity/src/message_signatures.rs:18-20 | padding keeps ids without zero bytes apart |
| `ValsetRelay.OrderSigs` | orchestrator/gravity_utils/src/types/valsets.rs:131-252 | passes if and only if the signing members of the current set carry more than two thirds of the full power |
| `ValsetRelay.PassesIff` | orchestrator/gravity_utils/src/types/valsets.rs:131-252 | being above the threshold is holding more than two thirds of 2^32 |
| `ValsetRelay.FindLatestValidValset` | orchestrator/relayer/src/valset_relaying.rs:159-217 | the loop computes the newest submittable valset |
| `ValsetRelay.NewestIsGreatest` | orchestrator/relayer/src/valset_relaying.rs:159-217 | that is the greatest available nonce above the contract's which passes both checks, or none does |
| `ValsetRelay.RelayAdvancesIff` | solidity/contracts/Gravity.sol:258-274 | a run advances the contract if and only if something is submittable and nothing beyond the contract's reach is |
| `ValsetRelay.OutOfReach` | solidity/contracts/Gravity.sol:266-274 | a chain of valsets, each submittable from the one before, on which a run makes no progress |
| `ValsetRelay.RelaysReachLatestIff` | orchestrator/ethereum_gravity/src/valset_update.rs:23-36 | with every valset submittable from its predecessor, repeated runs reach the newest one if and only if nothing beyond reach is submittable at any nonce they reach |
| `ValsetRelay.RelaysReachLatest` | orchestrator/ethereum_gravity/src/valset_update.rs:23-36 | a condition on the offers alone under which repeated runs reach the newest one |
| `BatchRelay.GroupBatches` | orchestrator/relayer/src/batch_relaying.rs:70-117 | each token is listed with exactly its signed batches, each as often as in the listing, in the reverse of its order |
| `BatchRelay.GroupedOldestFirst` | orchestrator/relayer/src/batch_relaying.rs:111-117 | from a listing that is newest first per token they are oldest first |
| `BatchRelay.CacheIsSound` | orchestrator/relayer/src/batch_relaying.rs:234-332 | one read per token submits exactly what a fresh read before each batch would |
| `BatchRelay.FreshReadsDeliver` | orchestrator/relayer/src/batch_relaying.rs:234-332 | submitting with fresh reads delivers every wanted batch in time and within reach, or the contract has gone past it |
| `BatchRelay.Contract.SubmitBatch` | solidity/contracts/Gravity.sol:359-381 | the contract's checks on nonce, distance and timeout |
| `BatchRelay.Contract.SubmitToken` | orchestrator/relayer/src/batch_relaying.rs:234-332 | what is submitted, and that each submission is taken unless its own timeout or its distance from where the pass began stands against it |
| `BatchRelay.Contract.RelayBatches` | orchestrator/relayer/src/batch_relaying.rs:35-61 | after a pass every token is where fresh reads would have taken it, and no signed batch of the listing that is wanted, in time and within reach is above its token's nonce |
| `CallRelay.RewardsByToken` | orchestrator/relayer/src/logic_call_relaying.rs:25-32 | the map holds the fee total of every token |
| `CallRelay.ShouldRelayLogicCall` | orchestrator/relayer/src/logic_call_relaying.rs:19-58 | stopping early in any order gives the answer of the full sum |
| `CallRelay.WethCountsInFull` | orchestrator/relayer/src/logic_call_relaying.rs:35-39 | a fee in wrapped ether raises the reward by its amount, whatever else is paid |
| `CallRelay.UnpricedCountsForNothing` | orchestrator/relayer/src/logic_call_relaying.rs:40-51 | a fee in a token without a price does not change the reward |
| `CallRelay.PricedCountsForItsPrice` | orchestrator/relayer/src/logic_call_relaying.rs:40-52 | the first fee in a priced token raises the reward by its price |

## Left out

- Logic call timeouts, and what makes the handlers of deposits and deployments panic: in the two-chain model each such event says whether its handler will panic.
- Keeper.GravityKeeper.EndBlocker: slashing and valsets are in other modules; slashing only reads the stored batches and valsets have stores of their own.
- Keeper.GravityKeeper.OutgoingTxBatchExecuted: the burning of vouchers for tokens from Ethereum is assumed to succeed.
- ValsetRelay.OrderSigs: a signature that does not verify is not modelled; the chain only stores valid ones.
- Minting and burning of vouchers, chain fees and the IBC forwarding queue: balances around a transfer, not its life.
- The order of transfers inside a batch: batches hold sets of transfers.
- Staking and slashing internals: powers, bonded lists and signing infos are inputs.
- Floating point: the 5% comparison is made on integers, where no value lies close enough to the boundary for rounding to matter.
- Which error a malformed protobuf input reports, and the option to discard unknown fields.
- Signature cryptography and hashing: signed bytes are compared before hashing, and a signature is a member of a set.
- Network calls, retries, gas estimates and prices: their results are inputs; a submission that is not wanted or not mined is an arbitrary choice.
- The choice of the safe Ethereum block by chain id: one branch each.
- Bidding messages, genesis, upgrades, queries and command line: plumbing around the modelled state.
- Slashing.SlashingKeeper.Slash: amounts slashed are not modelled, only who is slashed and jailed.
- Oracle.EthOracle.Iterate: takes the final log as one value; that reads of a growing log agree on final blocks is in the machine.
- BatchRelay.Contract.SubmitToken: speaks of batches in order only, which is how they are grouped.
