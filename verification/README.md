# Zebvix node: commit pipeline, governance, rewards, pruning, genesis and preview refresh

A Dafny model of the parts of the repository that keep state over time, and proofs of what that
state always satisfies:

- **Commit pipeline** (`Pipeline`, `Producer`, `PipelineLaws`, `Sequential`, `Candidates`,
  `ChainLaws`, `CandidateSort`): one block from candidate to committed tip, with an I/O fault or a
  crash possible at every step. The methods of `Producer` change a database object step by step
  and are proved equal to `Pipeline.Stop`; the laws are about that function and about runs of it.
  `Sequential` is an independent chain without caches, clones or write order that the pipeline refines.
- **Governance** (`Governance`, `GovernanceLaws`, `GovernanceStatuses`, `GovernanceRuns`,
  `GovernanceLosses`, `PipelineGovernance`): proposal and version registries, the two sweeps after each block, runs with
  lost sweeps, and the governance transactions that execution carries out.
- **Interval rewards** (`Rewards`, `RewardDistribution`): fee window, escrow mint, credits.
- **Pruner** (`Pruner`, `TrieAdapter`): where trie nodes are buffered, and the background sweep
  interleaved with commits, one atomic section at a time.
- **Genesis** (`Genesis`, `GenesisLaws`, `VaultGate`, `HeaderEncoding`, `Bytes`): first boot, later
  boots, the two mainnet gates, the bytes under a header hash.
- **Preview refresh** (`Refresh`): the two flags of the mockup preview plugin between its awaits.

Executor, fee rule and source generator are function parameters. What a result needs to know of the
executor is a named premise: `ChecksNonces` (`executor.rs:590-621`), `PaysBlockReward`
(`executor.rs:521-528`), `StoresOnlyOps` (`tx_handler.rs:281-352`, `executor.rs:464-485`) and
`HandsOverNothing` (`mpt.rs:247-326`, for which `TrieAdapter` gives the reason). Of a state trie the
models use which nodes lie under a root. A digest determines what it was
taken of (`Blocks.H256`). Clock readings and the pool's selection are
arbitrary, and so is which storage calls fail: it is given with the database, call by call.
Plain 64- and 128-bit arithmetic wraps where it can overflow, as in the release build.

## Where the code and its documentation differ

- The first vote decides: `try_finalize` rejects whatever has no majority yet, so with two or more
  active validators nothing is ever scheduled (the tests at
  `crates/zbx-staking/src/governance.rs:233-307` expect Pending).
- The two governance phases of one block never act on the same proposal (`block_producer.rs:736-738`).
- A lost sweep of scheduled proposals always converges on versions, on statuses only without a deciding
  inversion. A lost whole hook converges on versions when another hook comes next; when transactions
  run in between, a proposal that the lost hook would have rejected can be approved late and come into
  force for good (`block_producer.rs:104-116`).
- A candidate executed at an old height can schedule a proposal that a completed hook has passed.
- A dropped candidate can leave proposals, votes and the proposal counter behind
  (`block_producer.rs:680-684`); a block cannot be repeated once a sender's account is
  written (`block_producer.rs:663`); a failed reward window is never made up for (`block_producer.rs:792-795`).
- `committee_share * weight` overflows 128 bits for every eligible validator in the first halving era
  (`rewards.rs:102`). What is owed stays covered by escrow; the shares are wrong.
- The pruner marks before it takes its lock, so where the mark succeeds the commit guard does not
  protect a commit that falls in between (`block_producer.rs:647-660`); as written it never succeeds on
  a window with anything in it, for the two reasons below.
- Empty genesis accounts and genesis contract code do not reach the genesis hash, and code does not
  reach the disk, though the vault check looks for it in the configuration.
- No trie node ever reaches the disk. The state root is computed in tries that keep their nodes to
  themselves until `commit` (`trie.rs:564-569`), and `mpt.rs:247-326` never calls it, so the adapter's
  buffer is empty when the commit pipeline flushes it (`block_producer.rs:670-673`); the adapter's
  description (`trie_adapter.rs:31-37`) and `state_root_persistent.rs:74-78` expect it to be full. The
  genesis state is not written either (`genesis.rs:397-414`).
- Were the nodes on disk, the pruner would still never mark: its walk follows the storage root of
  every account and looks up the empty one, which is stored nowhere (`rocksdb_pruner.rs:212-240`). The
  pruner results with marks are about states without such accounts.
- An account row written by a commit that stopped before its block stays; an empty block's reward is
  then paid twice ("recoverable" at `block_producer.rs:663`).
- A tip pointer that cannot be read at open counts as an empty chain, and the next block rewinds the tip.

## Model

| member | source | states |
|---|---|---|
| `Producer.ExecuteAndCommitInner` | attached_assets/zbx-chain_extracted/zbx-chain/node/src/block_producer.rs:546-822 | The commit of one block with storage calls failing anywhere leaves the node exactly as `Pipeline.Stop` at the step that failed; when none fails it succeeds if and only if the block executes and the head has not moved. On success the returned header has gas used, bloom and each of the three roots from the field of that name in the execution result and everything else from the candidate, that block is stored under its hash, its number and as the tip, the staking rows are the executed ones row by row, and its root is appended to the retained list |
| `Producer.Persist` | attached_assets/zbx-chain_extracted/zbx-chain/node/src/block_producer.rs:663-705 | Accounts, then trie nodes, then block, then staking delta: it fails exactly when a storage call does, and leaves exactly the earlier ones on disk. Afterwards a deleted staking key is gone even when also put, a delegation put of 0 is gone, any other put holds its amount, and every other row is as it was |
| `Producer.SeedView` | attached_assets/zbx-chain_extracted/zbx-chain/node/src/block_producer.rs:553-583 | Every sender, every receiver and the coinbase has a row in the state view and nobody else has; each row is the stored account, or an empty one where none is stored; it fails exactly when a read does |
| `Producer.PutAccounts` | attached_assets/zbx-chain_extracted/zbx-chain/node/src/block_producer.rs:663-668 | Writing the state diff in any order; a failure leaves a subset of it written |
| `Producer.GovernanceHook` | attached_assets/zbx-chain_extracted/zbx-chain/node/src/block_producer.rs:743-766 | Load, finalise, execute, store: one `EndOfBlock` step on the stored pair, or nothing on an error; skipping the store when nothing changed loses nothing |
| `Producer.ScanWindow` | attached_assets/zbx-chain_extracted/zbx-chain/node/src/block_producer.rs:479-507 | Exactly the heights whose read fails or finds nothing are skipped; the rest of the window sums to the true total cut at 2^128 - 1 |
| `Producer.ApplyIntervalRewards` | attached_assets/zbx-chain_extracted/zbx-chain/node/src/block_producer.rs:474-544 | The mint raises the escrow balance and moves no other row, then the validators are paid row by row as in `DistributeBlockReward`; an I/O error leaves neither |
| `PipelineLaws.SwapIffDurable` | attached_assets/zbx-chain_extracted/zbx-chain/node/src/block_producer.rs:632-716 | At every step that can fail: the live validator set is the executed one if and only if block and staking delta are on disk; before that neither the set nor the staking rows moved, and no block or tip before the block write |
| `PipelineLaws.RetryAfterStoreIsDropped` | attached_assets/zbx-chain_extracted/zbx-chain/node/src/block_producer.rs:632-705 | Once a block is stored no retry of it passes the check, so a staking delta that failed after the block write is never applied |
| `PipelineLaws.LateStop` | attached_assets/zbx-chain_extracted/zbx-chain/node/src/block_producer.rs:718-822 | Nothing after the swap changes chain, nodes, staking rows or head; accounts move at the escrow address only, and the set only by credits |
| `PipelineLaws.PartialWriteBlocksReplay` | attached_assets/zbx-chain_extracted/zbx-chain/node/src/block_producer.rs:663-678 | Once a sender's account is written and the block is not, the same block no longer executes: the "recoverable" crash window is not |
| `PipelineLaws.CleanStopReplays` | attached_assets/zbx-chain_extracted/zbx-chain/node/src/block_producer.rs:632-668 | With no touched account written and nothing stored about proposals, the same block executes the same again |
| `PipelineLaws.StoredCompleteIff` | attached_assets/zbx-chain_extracted/zbx-chain/node/src/block_producer.rs:670-678 | One commit past its block write: the stored block is complete on disk if and only if its root is reached from the disk, what execution flushed and what it handed over |
| `PipelineLaws.NodesDurableIff` | attached_assets/zbx-chain_extracted/zbx-chain/node/src/block_producer.rs:670-678 | Without pruning, over every run of commits stopped anywhere and restarts: the blocks it stores are complete from then on if and only if each root was handed over |
| `PipelineLaws.NothingHandedOver` | attached_assets/zbx-chain_extracted/zbx-chain/node/src/block_producer.rs:670-673 | With an executor that hands over nothing, no run ever writes a trie node, and a stored block is complete only if the starting disk had its state |
| `TrieAdapter.ComputeRoot` | attached_assets/zbx-chain_extracted/zbx-chain/crates/zbx-state/src/mpt.rs:247-326 | The state root is computed without committing the trie: adapter buffer and disk are left as they were, and the nodes built go down with the trie |
| `TrieAdapter.MutableTrie.Commit` | attached_assets/zbx-chain_extracted/zbx-chain/crates/zbx-trie/src/trie.rs:564-569 | The one operation that hands a trie's nodes to the adapter: all of its cache, or, when an insertion fails, a part of it with the rest lost |
| `TrieAdapter.Adapter.Insert` | attached_assets/zbx-chain_extracted/zbx-chain/crates/zbx-state/src/trie_adapter.rs:163-176 | A node is handed over in any case; below the threshold it is buffered, at it the buffer is written at once, and the call fails, keeping the buffer, exactly when that write does |
| `TrieAdapter.Adapter.Commit` | attached_assets/zbx-chain_extracted/zbx-chain/crates/zbx-state/src/trie_adapter.rs:93-123 | Everything handed over is on disk afterwards, or the one write failed and the buffer is kept; an empty buffer is not written |
| `PipelineLaws.AccountsAheadOnlyUnpublished` | attached_assets/zbx-chain_extracted/zbx-chain/node/src/block_producer.rs:663-678 | Over every run, against a baseline kept off the disk (starting accounts plus the diffs of stored blocks): the account table differs from it only at rows that a commit wrote without storing its block, or the escrow mint wrote, and that no stored block has written since |
| `PipelineLaws.LeakedRowStays` | attached_assets/zbx-chain_extracted/zbx-chain/node/src/block_producer.rs:663-668 | Such a row keeps its value and its mark, restarts included, until something writes it again |
| `PipelineLaws.StoppedRewardIsPaidTwice` | attached_assets/zbx-chain_extracted/zbx-chain/crates/zbx-execution/src/executor.rs:521-528 | An empty block stopped just before its block write has paid its coinbase on disk, and the next empty block of that height pays it again |
| `PipelineLaws.PayIsCovered` | attached_assets/zbx-chain_extracted/zbx-chain/node/src/block_producer.rs:509-541 | The credits of an interval never exceed what its mint put into escrow |
| `Sequential.RunIsSequentialFold` | attached_assets/zbx-chain_extracted/zbx-chain/node/src/block_producer.rs:603-716 | Clone, execute, swap and in-place credits refine a plain fold: after any mix of finished commits and of candidates dropped at or before the reorg check that ran no accepted governance call (`Quiet`), the tip, accounts, staking rows, registries and live set are those of the committed blocks alone, each with the rewards its boundary call managed |
| `Sequential.RunHolds` | attached_assets/zbx-chain_extracted/zbx-chain/node/src/block_producer.rs:603-716 | The same without `Quiet`: the node holds the ledger of the committed blocks with exactly the registry writes of the dropped candidates added |
| `Sequential.CommitSeals` | attached_assets/zbx-chain_extracted/zbx-chain/node/src/block_producer.rs:546-822 | One finished commit is one `Seal` of the sequential ledger, which has no cache, hash index, clone or write order |
| `PipelineGovernance.DropLeaksIff` | attached_assets/zbx-chain_extracted/zbx-chain/crates/zbx-staking/src/tx_handler.rs:281-352 | A dropped candidate leaves everything but flushed trie nodes alone if and only if none of the governance calls it ran is accepted by the stored registry |
| `PipelineGovernance.MovesIffAccepted` | attached_assets/zbx-chain_extracted/zbx-chain/crates/zbx-staking/src/tx_handler.rs:281-352 | A list of proposal and vote operations moves the registry for good if the starting registry accepts one of them, and otherwise leaves it as it was |
| `PipelineGovernance.RunIsGovernanceRun` | attached_assets/zbx-chain_extracted/zbx-chain/node/src/block_producer.rs:603-766 | Every run of the pipeline, stopped anywhere and restarted, acts on the stored registries as a run of `GovernanceRuns` |
| `PipelineGovernance.DiskStaysConsistent` | attached_assets/zbx-chain_extracted/zbx-chain/node/src/block_producer.rs:143-160 | So on every disk such a run leaves, each Executed proposal is at most the stored version and each stored version was asked for by an Executed proposal |
| `PipelineGovernance.DiskNothingDueIff` | attached_assets/zbx-chain_extracted/zbx-chain/node/src/block_producer.rs:603-766 | And no proposal is left Scheduled on disk that the last completed governance step has passed if and only if no vote since then scheduled one; none did unless a block below that step was executed after it |
| `PipelineGovernance.NoValidatorsNoLeak` | attached_assets/zbx-chain_extracted/zbx-chain/node/src/block_producer.rs:603-630 | On the path without a validator set execution stores nothing about proposals |
| `PipelineGovernance.ProposalWrites` | attached_assets/zbx-chain_extracted/zbx-chain/crates/zbx-staking/src/tx_handler.rs:281-328 | A transaction's accepted upgrade call takes the next id and, if the name is valid and the id free, writes a pending proposal with the name, version and activation it asked for; every other proposal and all versions stay |
| `PipelineGovernance.VoteWrites` | attached_assets/zbx-chain_extracted/zbx-chain/crates/zbx-staking/src/tx_handler.rs:330-352 | A transaction's accepted first vote schedules its proposal if and only if its sender is the only active validator, approves, and is in time; else it rejects it; nothing else moves |
| `Sequential.DroppedVoteIsFinal` | attached_assets/zbx-chain_extracted/zbx-chain/crates/zbx-staking/src/tx_handler.rs:330-352 | It can store something: a dropped candidate's vote stays, its proposal is decided and the vote is refused from then on |
| `Candidates.BuildCandidate` | attached_assets/zbx-chain_extracted/zbx-chain/node/src/block_producer.rs:345-422 | It fails exactly when the head block cannot be read or is missing, and builds nothing exactly on an empty selection with empty blocks off. A candidate has the parent's hash, height plus one and epoch, the configured coinbase and gas limit, the fee rule's answer or else the parent's fee and at least 1, the later of clock and next second, zeros where execution decides, and a permutation of the selection |
| `Candidates.ProduceOne` | attached_assets/zbx-chain_extracted/zbx-chain/node/src/block_producer.rs:828-849 | Builds, drops late candidates, commits: without anything to build or past the deadline the node is unchanged, otherwise it is a commit of such a candidate stopped somewhere; without a storage fault it fails only on a missing head block, a block that does not execute, or a moved head |
| `ChainLaws.ChainOnlyGrows` | attached_assets/zbx-chain_extracted/zbx-chain/node/src/block_producer.rs:350-391 | Over every run of building, waiting, committing to any stage and reopening, with any clock: the chain only grows, heights are contiguous, every block names the hash of the stored, patched parent, timestamps increase |
| `ChainLaws.ProduceOneKeepsChain` | attached_assets/zbx-chain_extracted/zbx-chain/node/src/block_producer.rs:828-849 | `produce_one`, as its method leaves the node, keeps that chain and adds at most one block |
| `ChainLaws.OnlyChildrenOfTheHeadCommit` | attached_assets/zbx-chain_extracted/zbx-chain/node/src/block_producer.rs:632-638 | However long a candidate waited, it is persisted only as a child of the present head |
| `ChainLaws.OneFaultyReadIsHarmless` | attached_assets/zbx-chain_extracted/zbx-chain/node/src/block_producer.rs:350-638 | With two head reads that each give the head or nothing, what gets past the check is a child of the head if and only if not both gave nothing on a chain longer than genesis |
| `ChainLaws.UnreadPointerRewinds` | attached_assets/zbx-chain_extracted/zbx-chain/crates/zbx-storage/src/db.rs:75-100 | Both reads share one cached value filled at open: if the tip pointer was not read, the next stored block is block 1 and the tip moves back to it; the chain is extended if and only if the pointer was read or there is only genesis |
| `CandidateSort.OrderIff` | attached_assets/zbx-chain_extracted/zbx-chain/node/src/block_producer.rs:371-374 | The comparator is a strict weak order on a list if and only if all transactions share a sender or no sender has two nonces |
| `CandidateSort.SortBy` | attached_assets/zbx-chain_extracted/zbx-chain/node/src/block_producer.rs:371-374 | The result is a permutation, and a stable sort wherever the comparator is an order |
| `CandidateSort.SortedWhereOrdered` | attached_assets/zbx-chain_extracted/zbx-chain/node/src/block_producer.rs:364-374 | On those lists every sender's nonces ascend; unless there is one sender, the list is left as it was |
| `CandidateSort.PairwiseOrderIsNotEnough` | attached_assets/zbx-chain_extracted/zbx-chain/node/src/block_producer.rs:371-374 | Elsewhere: a list in order pair by pair whose sender runs backwards |
| `Governance.ApplyReadyGovernance` | attached_assets/zbx-chain_extracted/zbx-chain/node/src/block_producer.rs:179-227 | The registries end as one sweep of the ready proposals in id order; the flag says whether any was ready |
| `Governance.VersionRegistry.Apply` | attached_assets/zbx-chain_extracted/zbx-chain/crates/zbx-types/src/version_registry.rs:121-140 | A downgrade is refused and leaves the registry untouched |
| `Governance.ProposalRegistry.TryFinalizeAllPending` | attached_assets/zbx-chain_extracted/zbx-chain/crates/zbx-staking/src/governance.rs:163-214 | Every pending proposal becomes Scheduled if more than half of the active validators said yes and its activation is ahead, else Rejected, and nothing else changes; the flag says whether there was one |
| `Governance.ProposalRegistry.CastAndMaybeFinalize` | attached_assets/zbx-chain_extracted/zbx-chain/crates/zbx-staking/src/governance.rs:97-140 | A vote on a pending proposal is recorded and the proposal decided by the same rule; on any other id nothing changes |
| `Governance.ProposalRegistry.ReadyToExecute` | attached_assets/zbx-chain_extracted/zbx-chain/crates/zbx-types/src/governance.rs:625-629 | Exactly the proposals whose status is Scheduled and whose activation block is not ahead, in id order |
| `GovernanceLaws.SweepIsJoin` | attached_assets/zbx-chain_extracted/zbx-chain/node/src/block_producer.rs:179-227 | A sweep in any order leaves the pointwise maximum of starting versions and valid ready proposals |
| `GovernanceLaws.SweepOrderIrrelevant` | attached_assets/zbx-chain_extracted/zbx-chain/node/src/block_producer.rs:184-226 | Two orders of the same proposals give the same versions |
| `GovernanceLaws.SweepStatus` | attached_assets/zbx-chain_extracted/zbx-chain/node/src/block_producer.rs:207-223 | A visited proposal ends Executed if and only if its name is valid and neither the registry nor an earlier visited proposal is above it, else Failed |
| `GovernanceLaws.TicksAreJoin` | attached_assets/zbx-chain_extracted/zbx-chain/node/src/block_producer.rs:104-116 | Any sequence of ticks, however heights are batched, leaves the maximum over all proposals due by the highest |
| `GovernanceLaws.MissedTicksConverge` | attached_assets/zbx-chain_extracted/zbx-chain/node/src/block_producer.rs:104-116 | Ticks lost to crashes at any set of heights: the first completed tick at the same horizon gives the crash-free versions |
| `GovernanceStatuses.StatusesConvergeIff` | attached_assets/zbx-chain_extracted/zbx-chain/node/src/block_producer.rs:104-116 | Losing one tick leaves registries and every status as they would have been if and only if no inversion decides an outcome: a due proposal and a later one of lower id for the same module, the second in line below the first and overtaken by nothing else |
| `GovernanceStatuses.TickStatus` | attached_assets/zbx-chain_extracted/zbx-chain/node/src/block_producer.rs:188-223 | In one tick a due proposal ends Executed if and only if its name is valid and neither the registry nor a due proposal of lower id is above it |
| `GovernanceLaws.StatusesDependOnBatching` | attached_assets/zbx-chain_extracted/zbx-chain/node/src/block_producer.rs:107-116 | An instance: two proposals, one lost tick, and a Failed becomes Executed |
| `GovernanceStatuses.InversionExists` | attached_assets/zbx-chain_extracted/zbx-chain/node/src/block_producer.rs:107-116 | The same two proposals are a deciding inversion |
| `GovernanceRuns.FirstVoteDecides` | attached_assets/zbx-chain_extracted/zbx-chain/crates/zbx-types/src/governance.rs:458-474 | The first vote settles a proposal: scheduled if and only if the only active validator approves in time |
| `GovernanceRuns.HookSettles` | attached_assets/zbx-chain_extracted/zbx-chain/node/src/block_producer.rs:743-766 | After the hook nothing is pending or due, and a second hook at that height changes nothing |
| `GovernanceLosses.LostHookIff` | attached_assets/zbx-chain_extracted/zbx-chain/node/src/block_producer.rs:104-116 | A hook lost to a crash, after any history and before any other with later hooks at its height or above: the versions come out as if it had completed if and only if every proposal pending at the loss that a sole validator approved before the next hook could reject it, and that has come due, is met by the versions of that time or by proposals due anyway |
| `GovernanceLosses.NextHookRepairs` | attached_assets/zbx-chain_extracted/zbx-chain/node/src/block_producer.rs:104-116 | When a hook is the next thing to run, the loss is always repaired |
| `GovernanceLosses.LostHookDiverges` | attached_assets/zbx-chain_extracted/zbx-chain/node/src/block_producer.rs:104-116 | A run with a sole validator in which it never is: the lost hook would have rejected a proposal that a later vote puts in force |
| `GovernanceRuns.InForceIffSoleValidator` | attached_assets/zbx-chain_extracted/zbx-chain/crates/zbx-staking/src/governance.rs:97-140 | Over every run of proposals, votes and hooks, crashes included: a proposal is in force if and only if a sole active validator approved it |
| `GovernanceRuns.InertWithoutSoleValidator` | attached_assets/zbx-chain_extracted/zbx-chain/crates/zbx-staking/src/governance.rs:163-214 | So with two or more active validators no version ever changes |
| `GovernanceRuns.RegistriesStayConsistent` | attached_assets/zbx-chain_extracted/zbx-chain/node/src/block_producer.rs:143-160 | In every reachable pair: each Executed proposal is at most the stored version, and each stored version was asked for by an Executed proposal |
| `GovernanceRuns.NothingDueIff` | attached_assets/zbx-chain_extracted/zbx-chain/node/src/block_producer.rs:184-226 | Over every run, at whatever heights: no proposal is left Scheduled that the last completed hook has passed if and only if no vote since that hook scheduled one |
| `GovernanceRuns.StaleVoteSchedulesDue` | attached_assets/zbx-chain_extracted/zbx-chain/node/src/block_producer.rs:603-638 | A run in which one does: a candidate of height 5 executed after the hook of height 7 |
| `GovernanceRuns.NothingDueRemains` | attached_assets/zbx-chain_extracted/zbx-chain/node/src/block_producer.rs:184-226 | With heights that do not go down, lost hooks included, nothing due is left |
| `GovernanceRuns.InForceIffApprovedInItsBlock` | attached_assets/zbx-chain_extracted/zbx-chain/crates/zbx-staking/src/governance.rs:163-214 | When no hook is lost, a proposal comes into force if and only if a sole active validator approves it in the block that proposed it |
| `Rewards.AccumulateFees` | attached_assets/zbx-chain_extracted/zbx-chain/node/src/block_producer.rs:482-507 | The nested saturating loops return exactly the true sum cut at 2^128 - 1 |
| `Rewards.FeesAre` | attached_assets/zbx-chain_extracted/zbx-chain/node/src/block_producer.rs:479-507 | The true sum spelled out: over the last 100 heights and every transaction read, the smaller of priority fee and what the fee cap leaves above the base fee, times the receipt's gas or else the gas limit |
| `Rewards.EffectivePriceFits` | attached_assets/zbx-chain_extracted/zbx-chain/crates/zbx-types/src/transaction.rs:354-358 | The addition cannot leave 64 bits; the price is the smaller of fee cap and base fee plus priority fee, and the base fee where that is above the cap |
| `Rewards.WindowOrderIrrelevant` | attached_assets/zbx-chain_extracted/zbx-chain/node/src/block_producer.rs:485-507 | The sum does not depend on the order of transactions within blocks |
| `Rewards.MoreGasNeverLowers` | attached_assets/zbx-chain_extracted/zbx-chain/node/src/block_producer.rs:495-505 | Replacing reported gas by at least as much, transaction by transaction, never lowers the sum |
| `Rewards.MissingReceiptsNeverLower` | attached_assets/zbx-chain_extracted/zbx-chain/node/src/block_producer.rs:495-505 | So losing any receipts, with gas limits in their place, never lowers it |
| `Rewards.WindowsTile` | attached_assets/zbx-chain_extracted/zbx-chain/node/src/block_producer.rs:479-481 | Over boundaries 1..m each block from 1 on is in exactly one window; what is counted falls short of the total by exactly the windows whose call failed, so nothing is deferred |
| `RewardDistribution.DistributeBlockReward` | attached_assets/zbx-chain_extracted/zbx-chain/crates/zbx-staking/src/rewards.rs:57-150 | For any active set without repetitions, row by row: the proposer gets a tenth; every active validator gets the rest times its stake, cut to 128 bits, divided by the active stake, all of it as its own without delegators, otherwise own part and commission, with the remainder in the pool and the delegated stake as its denominator; every other row, and all of them when there is nothing to pay or no stake, is unchanged |
| `RewardDistribution.DistributesRows` | attached_assets/zbx-chain_extracted/zbx-chain/crates/zbx-staking/src/rewards.rs:88-138 | The same law of the specification function, for every overflow and saturation |
| `RewardDistribution.CreditsReachMint` | attached_assets/zbx-chain_extracted/zbx-chain/crates/zbx-staking/src/rewards.rs:88-138 | With a registered proposer, products that fit and room in the rows, what is owed rises by more than the mint less one unit per active validator |
| `RewardDistribution.MintIs` | attached_assets/zbx-chain_extracted/zbx-chain/crates/zbx-staking/src/rewards.rs:173-182 | The mint of a boundary is the fees and the reward of each of its 100 blocks, 99 of them at the old rate when the boundary is itself a halving, cut at 2^128 - 1; no other height mints |
| `RewardDistribution.RewardHalves` | attached_assets/zbx-chain_extracted/zbx-chain/crates/zbx-types/src/lib.rs:143-152 | The block reward is two coins before the first halving and half, rounded down, of what it was one interval before, at every height |
| `RewardDistribution.CreditsCoveredByMint` | attached_assets/zbx-chain_extracted/zbx-chain/crates/zbx-staking/src/rewards.rs:152-182 | Everything newly owed to validators and delegators is at most the interval mint |
| `RewardDistribution.CreditIsExact` | attached_assets/zbx-chain_extracted/zbx-chain/crates/zbx-staking/src/rewards.rs:104-138 | Below saturation a share is split between validator and delegators without loss |
| `RewardDistribution.ShareExactIff` | attached_assets/zbx-chain_extracted/zbx-chain/crates/zbx-staking/src/rewards.rs:99-103 | A validator gets its proportional share if and only if the product fits 128 bits |
| `RewardDistribution.EligibleValidatorUnderpaid` | attached_assets/zbx-chain_extracted/zbx-chain/crates/zbx-staking/src/rewards.rs:99-103 | Before the first halving it never fits for a validator with the minimum self-stake: it is paid less than its share |
| `Pruner.WriterSeesTip` | attached_assets/zbx-chain_extracted/zbx-chain/node/src/block_producer.rs:647-678 | In every interleaving with restarts and no failure between block write and push, a pruner holding the write guard finds the tip in the list and in the head's window |
| `Pruner.SeedIsWindow` | attached_assets/zbx-chain_extracted/zbx-chain/node/src/node.rs:470-488 | What a restart lists: the last `retain` heights of the stored chain and the tip in any case, ascending, each with its own root |
| `Pruner.SnapshotIsWindow` | attached_assets/zbx-chain_extracted/zbx-chain/crates/zbx-pruner/src/rocksdb_pruner.rs:178-192 | A prune cycle marks exactly the listed roots of the last `retain` heights up to the head it read |
| `Pruner.SweepIsSafeIff` | attached_assets/zbx-chain_extracted/zbx-chain/crates/zbx-pruner/src/rocksdb_pruner.rs:337-400 | A sweep leaves tip, the account table's storage and a running block complete if and only if a test on hashes succeeds: tip root and named storage roots are marked, and so is what the block flushed or borrowed |
| `Pruner.TipSnappedIsCovered` | attached_assets/zbx-chain_extracted/zbx-chain/crates/zbx-pruner/src/rocksdb_pruner.rs:337-349 | With the tip in the snapshot and no block being processed, the test is that the table's storage roots are marked |
| `Pruner.CoveringSweepsKeepComplete` | attached_assets/zbx-chain_extracted/zbx-chain/node/src/block_producer.rs:647-678 | Over every run, failures and restarts included, of an execution that hands over what it builds and borrows only from storage tries the table names: all of that stays complete while every sweep passes the test and no commit stops between account rows and nodes they name |
| `Pruner.NextTipCompleteIff` | attached_assets/zbx-chain_extracted/zbx-chain/crates/zbx-state/src/mpt.rs:247-326 | After a sweep the next block executes if and only if the nodes its storage writes go through were marked, and is then complete if and only if everything it borrows was; a contract touched without a storage write after its storage left the window is the failing case |
| `Pruner.UndisturbedCycle` | attached_assets/zbx-chain_extracted/zbx-chain/crates/zbx-pruner/src/rocksdb_pruner.rs:316-415 | From a restart whose window the walk can read, a prune cycle that no commit overlaps is safe if and only if the table's storage roots are marked |
| `Pruner.CommitBetweenMarkAndLockIsSwept` | attached_assets/zbx-chain_extracted/zbx-chain/crates/zbx-pruner/src/rocksdb_pruner.rs:337-349 | From a restart whose window the walk can read, with no step failing: a commit between mark and lock loses every unmarked node of its state |
| `Pruner.GapIsReachable` | attached_assets/zbx-chain_extracted/zbx-chain/crates/zbx-pruner/src/rocksdb_pruner.rs:337-349 | Such restarts exist |
| `Pruner.EarlyFlushIsSwept` | attached_assets/zbx-chain_extracted/zbx-chain/crates/zbx-state/src/trie_adapter.rs:163-176 | From a restart whose window the walk can read: nodes flushed while executing, before the commit guard, are swept before the commit that needs them |
| `Pruner.UnlistedTipIsSwept` | attached_assets/zbx-chain_extracted/zbx-chain/node/src/block_producer.rs:675-819 | From a restart whose window the walk can read: an error between block write and push leaves a tip that the next prune cycle deletes |
| `Pruner.NothingHandedOverNothingPruned` | attached_assets/zbx-chain_extracted/zbx-chain/crates/zbx-pruner/src/rocksdb_pruner.rs:212-225 | When execution hands over nothing, over every run from a disk without trie nodes in which every listed root reaches some node, the mark walk of a non-empty snapshot gives up and no sweep deletes anything |
| `Pruner.BareAccountsStopPruner` | attached_assets/zbx-chain_extracted/zbx-chain/crates/zbx-pruner/src/rocksdb_pruner.rs:212-240 | Even with every node on disk, no non-empty snapshot is ever marked while each block's state has an account without storage |
| `Genesis.BootstrapInto` | attached_assets/zbx-chain_extracted/zbx-chain/node/src/genesis.rs:300-414 | It reports a storage error exactly when a storage call failed, which on an existing chain changes nothing; otherwise it is one `Boot`. Accepted, it reports the hash of the stored block 0 and whether that was written just now; created, every listed address holds balance and nonce of its last entry and nothing else, every other row is as it was, and the root of block 0 commits to exactly the entries that are not empty |
| `Genesis.BuildGenesisBlock` | attached_assets/zbx-chain_extracted/zbx-chain/node/src/genesis.rs:281-292 | The i-th account is the i-th entry's address with its balance and nonce and no code; the header is fixed but for the timestamp and a root that commits to the last entry of each address that is not empty |
| `Genesis.AllocationRows` | attached_assets/zbx-chain_extracted/zbx-chain/node/src/genesis.rs:281-292 | Over any table and any allocation: who holds what afterwards and what the root commits to, entry by entry |
| `Genesis.ComputeGenesisStateRoot` | attached_assets/zbx-chain_extracted/zbx-chain/node/src/genesis.rs:462-469 | The hashed map holds the last entry of every address |
| `Genesis.PutGenesisAccounts` | attached_assets/zbx-chain_extracted/zbx-chain/node/src/genesis.rs:400-403 | The write loop leaves the same map in the account table, duplicates included |
| `Genesis.ValidateNoPlaceholders` | attached_assets/zbx-chain_extracted/zbx-chain/node/src/genesis.rs:239-278 | A configuration is refused exactly when its chain id is 8989 and the first 18 bytes of some validator or account are all zero |
| `Bytes.BytesRoundTrip` | attached_assets/zbx-chain_extracted/zbx-chain/node/src/genesis.rs:353-391 | A chain id survives its eight stored bytes |
| `Bytes.ByteAt` | attached_assets/zbx-chain_extracted/zbx-chain/crates/zbx-types/src/block.rs:169-186 | The most significant byte comes first: byte i of n is the value shifted down by n - 1 - i bytes |
| `GenesisLaws.RootMatchesTable` | attached_assets/zbx-chain_extracted/zbx-chain/node/src/genesis.rs:281-403 | On a fresh disk the root in block 0 is the root of the account table the first boot leaves |
| `GenesisLaws.AllocOrderIrrelevant` | attached_assets/zbx-chain_extracted/zbx-chain/node/src/genesis.rs:462-469 | With distinct addresses the order of the allocation does not matter |
| `GenesisLaws.AllocOrderMattersForDuplicates` | attached_assets/zbx-chain_extracted/zbx-chain/node/src/genesis.rs:462-469 | With an address listed twice it does |
| `GenesisLaws.StrictBootAcceptsIff` | attached_assets/zbx-chain_extracted/zbx-chain/node/src/genesis.rs:320-395 | After a first boot, a strict boot is accepted if and only if it passes the placeholder check and has the same timestamp, the same accounts that are not empty, and the same chain id |
| `GenesisLaws.BootAnswers` | attached_assets/zbx-chain_extracted/zbx-chain/node/src/genesis.rs:300-395 | With mismatches allowed every boot is accepted; a strict one is refused exactly for a placeholder, else another stored genesis, else an eight-byte chain id that differs, and a refusal writes nothing |
| `GenesisLaws.LaterBootsKeepDisk` | attached_assets/zbx-chain_extracted/zbx-chain/node/src/genesis.rs:320-395 | No sequence of later boots under any policies changes chain, accounts or a stored chain id; a missing one is set by the first boot that gets to the check |
| `GenesisLaws.CodeNeverWritten` | attached_assets/zbx-chain_extracted/zbx-chain/node/src/genesis.rs:281-292 | Code, gas limit, base fee, extra data and validators of a configuration never reach the disk |
| `GenesisLaws.GenesisStateNotWritten` | attached_assets/zbx-chain_extracted/zbx-chain/node/src/genesis.rs:397-414 | The first boot writes no trie node: on a disk without nodes, block 0 is complete only if its root reaches nothing |
| `GenesisLaws.NoStateEverOnDisk` | attached_assets/zbx-chain_extracted/zbx-chain/node/src/genesis.rs:397-414 | From there, with an executor that hands over nothing, over every run neither block 0 nor any stored block has its state on disk unless its root reaches nothing |
| `GenesisLaws.BootedNodeHolds` | attached_assets/zbx-chain_extracted/zbx-chain/node/src/genesis.rs:397-414 | A node opened on a first boot's disk holds the ledger and chain of the genesis block, where `RunIsSequentialFold` and `ChainOnlyGrows` begin |
| `VaultGate.AssertVaultGenesisOrWarn` | attached_assets/zbx-chain_extracted/zbx-chain/node/src/config.rs:154-210 | The scan with its early stop decides exactly whether the first allocation at the address has code; errors and warnings follow |
| `VaultGate.CodeIff` | attached_assets/zbx-chain_extracted/zbx-chain/node/src/config.rs:188-194 | Code counts as missing exactly when its text is white space, any number of "0x", white space |
| `VaultGate.HexInjective` | attached_assets/zbx-chain_extracted/zbx-chain/node/src/main.rs:299-302 | The hex text of an address determines its bytes |
| `VaultGate.GatesExcludeEachOther` | attached_assets/zbx-chain_extracted/zbx-chain/node/src/config.rs:182-210 | A genesis passes placeholder check and mainnet vault check if and only if it has vault code and a chain id other than 8989 |
| `VaultGate.StrictMainnetNeverBoots` | attached_assets/zbx-chain_extracted/zbx-chain/node/src/genesis.rs:305-320 | With mainnet's chain id and vault code every strict boot fails, on every disk |
| `VaultGate.CheckMainnetGenesis` | attached_assets/zbx-chain_extracted/zbx-chain/node/src/main.rs:286-315 | Load and check of a mainnet node's own genesis file succeed exactly in that case |
| `HeaderEncoding.EncodingIdentifiesHeader` | attached_assets/zbx-chain_extracted/zbx-chain/crates/zbx-types/src/block.rs:146-205 | Two headers encode alike if and only if they differ at most in the committee signature, also where the 32-bit length tag is cut |
| `HeaderEncoding.Layout` | attached_assets/zbx-chain_extracted/zbx-chain/crates/zbx-types/src/block.rs:146-205 | The position of every field: fixed up to the extra data, whose length stands in front of it, and at fixed distances behind |
| `HeaderEncoding.HashFollowsEncoding` | attached_assets/zbx-chain_extracted/zbx-chain/crates/zbx-types/src/block.rs:130-135 | The header hash of the chain model is equal exactly when the encodings are |
| `Refresh.PreviewPlugin.BeginRefresh` | artifacts/mockup-sandbox/mockupPreviewPlugin.ts:82-91 | The section up to the first await |
| `Refresh.PreviewPlugin.EndRefresh` | artifacts/mockup-sandbox/mockupPreviewPlugin.ts:91-111 | The section after a discovery, with the first section of the recursive call |
| `Refresh.PreviewPlugin.AbortRefresh` | artifacts/mockup-sandbox/mockupPreviewPlugin.ts:100-102 | The `finally` section after a discovery that throws: the queued flag stays |
| `Refresh.AlwaysSound` | artifacts/mockup-sandbox/mockupPreviewPlugin.ts:79-111 | Throws or not: one discovery at a time, no more discoveries than requests, every request served by a discovery that started no earlier or still queued, and every call that returned reported a change exactly when its chain wrote |
| `Refresh.AlwaysFresh` | artifacts/mockup-sandbox/mockupPreviewPlugin.ts:90-102 | While nothing throws, a queued request has a running discovery ahead and the file shows the current source |
| `Refresh.NoLostRefresh` | artifacts/mockup-sandbox/mockupPreviewPlugin.ts:82-111 | At rest the file is the source of the directory at a moment no earlier than every request |
| `Refresh.ThrowStrandsQueuedRequest` | artifacts/mockup-sandbox/mockupPreviewPlugin.ts:100-108 | After a throw a queued request waits, with nothing running, for the next request |
| `Refresh.FailedWriteSticks` | artifacts/mockup-sandbox/mockupPreviewPlugin.ts:93-98 | After a failed write later refreshes repair the file if and only if they find another source than the failed one, or the file had it anyway |

## Left out

- The EVM and ZVM, tries, RLP, keccak, the base fee formula, mempool selection, eviction and base-fee feed, slashing and the consensus driver: parameters, or not part of this model.
- Several committers at once between head check and block write: one committer is assumed; other sources of blocks (network sync) are not part of this model.
- Commits of blocks numbered 0, which the reorg check admits on head 0: the sequential refinement is for heights above genesis, where `BuildCandidate` always is.
- A crash inside execution, and a crash inside the very first genesis write: the boot theorems start from a first boot that finished.
- How a restarted node rebuilds its validator set: a restart takes any set.
- Whether the storage library lets a thread that reads take the guard again while the pruner waits to write.
- Sequential.RunIsSequentialFold: its runs hold no restart, since a restarted node may come up with any validator set, and no commit that failed after the reorg check; `ChainLaws` and `PipelineLaws` cover those.
- Producer.ExecuteAndCommitInner: does not model the mempool, whose base-fee feed and eviction come between rewards and push and cannot fail.
- TrieAdapter.ComputeRoot: what an insertion builds is a parameter; reading nodes back and deleting are not part of this model.
- Pruner.CoveringSweepsKeepComplete: which storage roots the account table names after a block is the executor's choice among the old ones and those it built; the executor of this repository never changes one.
- RewardDistribution.DistributeBlockReward: the row law is for an active set that lists nobody twice, as an election from the registered validators leaves it (`validator.rs:346-384`); with repetitions a row is paid once per mention.
- Producer.ScanWindow: a receipt that cannot be read is the same as a missing one; nothing in this path writes receipts.
- Producer.PutAccounts: accounts are written in an arbitrary order, as the source's map gives none.
- Producer.SeedView: contract code is loaded with its account and is not a separate part of the view.
- CandidateSort.SortBy: the library sort is modelled by insertion with the source's comparator; on lists where the comparator is no order only the permutation is claimed.
- Governance.VersionRegistry.Apply: only the module row that the hook builds; activations, flags and storage version are never set by it.
- Governance.ProposalRegistry.CastAndMaybeFinalize: the tally loop is the size of a set of yes-voters; abstentions have no transaction.
- Refresh.AlwaysSound: a discovery sees the directory as it was at one moment between its start and its end; listing directories one by one is not modelled, and nobody else writes the generated file.
- HeaderEncoding.EncodingIdentifiesHeader: collisions of the hash itself are excluded by `Blocks.H256`.
- Parsing of configuration and genesis files, key handling, snapshots, RPC, logging and metrics, the React interface, generated clients and mock routes: plumbing around what is modelled.
