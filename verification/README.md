# Phoenix-Chain-Core: a verified model

This project models the parts of Phoenix-Chain-Core (a Go blockchain node with a PBFT consensus engine) that
keep state across many steps, and proves what they are for. Every statement holds for all inputs, all runs or
all reachable states of the model; `dafny verify dfyconfig.toml` checks all of it.

**Parallel transaction execution** (`Dag`, `TxDag`, `Ledger`, `Batch`, `Levels`, `Workers`, `Executor`,
`Receipts`, `Transition`). A block's transactions become a dependency graph. The graph is peeled level by level:
plain transfers of a level run side by side on account objects and are merged afterwards, a contract call runs
alone. The main result is that the whole procedure is serialisable: accounts, nonces, successes, gas and receipts
are exactly those of executing the list in order with the miner paid at the end (`Executor.Process`), and so when a
new block is packed, as long as no deadline passes and no sender is left out. It rests on
an exact condition for the graph to order every two conflicting transactions (`TxDag.CompleteIffNoGap`), on an
exact condition for contracts to be alone in their levels (`Levels.ContractsAloneIff`), on an argument that orders
which keep conflicting transactions in list order are interchangeable (`Ledger.ReorderedRun`), and on the equality
of a batch with its transactions in turn (`Batch.BatchAsRun`). That the transfers of a batch really run at the same
time on live account objects does not show in its result (`Workers.BatchUnderAnySchedule`). For transfers funds and
gas are conserved in every mode. `Transition` compares the result with the older processor that credits the miner
after every transaction: a block it accepts ends alike if and only if the miner covers its own transfers without the
fees of the block, and two concrete blocks show where the processors part.

**The chain indexer** (`ChainIndexer`): a state machine whose lock is released while a section is processed. Under
every interleaving of head and reorganisation notices the stored section heads stay on one chain, as long as a failed
backend reset, which cuts the index back without the lock, and a notice do not cut it back at the same time with
something stored. That condition is exact: an overlap of the two is harmless, whatever follows short of another failed
reset, if and only if nothing is stored (or a section takes in every block number there is), and a concrete run shows
what is lost otherwise. Stored sections stay within the known ones exactly as long as no section beyond them is
committed.

**Canonical chains** (`HeaderChain`, `BlockChain`): indexes from numbers to hashes and from transactions to block
numbers, maintained in place through reorganisations, equal at all times to what parent hashes say. The lookup of
transactions survives a reorganisation exactly if no dropped transaction also sits below the fork, and it is exact all
along a run of writes exactly if no switch of the run drops such a transaction; a concrete chain shows the failure, and
it cannot happen if no path repeats a transaction.

**Consensus** (`Quorum`, `Voting`, `Aggregates`, `Certificates`, `ViewChange`, `BlockTree`, `Committing`,
`ChainLog`, `Proposer`): one vote per slot follows from the voting rule and its record, for every run of a validator;
with at most a third of the validators faulty no two valid certificates of one slot differ. A certificate made at the
threshold is accepted by other nodes exactly if all its votes are of one view, which the aggregation does not check.
View-change certificates partition the voters; those that verify keep the height a quorum has reached, and whatever
the voters report, the height survives every order of visiting them exactly if some reported block is given it by all
its reporters. Pruning the block tree leaves exactly the descendants of the committed block. Over every run of the
engine, from whatever source certified blocks come and with or without their parents, tree, heads and log stay in
step, and recovery from the log succeeds exactly if the chain on disk ends at the highest commit or its parent. The
blocks committed are a chain, child after child, if and only if the run does not begin, with nothing locked above the
commit, by taking in a block one higher that is no child of the commit, and then its child: commits are compared by
number only, and a concrete run commits such a block. Proposer rotation is fair exactly if 64-bit arithmetic does not
wrap around within the window or the number of validators divides 2^64.

**Gas limit and derivation paths** (`GasLimit`, `DerivationPath`): the block gas limit is drawn into its range and
stays there; printed wallet paths parse back.

## Modelling choices

- Hashes and addresses are numbers; distinct blocks have distinct hashes. Databases are maps. Account balances are
  unbounded integers, as in the original; gas counters and the indexer's and log's numbers are 64-bit where that
  matters, written out as explicit bounds or wrap-around.
- A contract call is an arbitrary function of the transaction and the whole state. Whether an address holds code is
  a parameter. The clock enters as a function that says at which checks the deadline has passed.
- Go map iteration order, the equal-height coin and the order of worker steps are nondeterministic choices; results
  hold for every one of them.
- Aggregate signatures are symbolic: a signature is the collection of (validator, payload) pairs added up in it. A
  certificate holds the set of validator indices in place of the packed bit array; an index beyond the array's size
  is dropped, as the original does.
- Where comments and code disagree the code is followed: `UpdateChainState` is documented to accept a missing lock
  or commit state, but dereferences them, so the model panics.

## Model

| member | source | states |
|---|---|---|
| Dag.UnlockedAfterAncestors | libs/dag/dag.go:59-81 | In any peeling by levels, a vertex is handed out strictly after everything that reaches it |
| Dag.AscendingNeverStuck | libs/dag/dag.go:55-81 | A graph whose edges go upwards always has a vertex ready while any is left, so peeling cannot stall |
| Dag.ZeroIffUnlocked | libs/dag/dag.go:59-81 | The in-degree counter of a vertex is at zero exactly when all its predecessors were counted down, repeated edges included |
| Dag.QueuedIsNextLevel | libs/dag/dag.go:59-81 | What the counter loops queue is exactly the next level |
| Dag.Dag.constructor | libs/dag/dag.go:31-39 | A graph without edges, nothing handed out |
| Dag.Dag.AddEdge | libs/dag/dag.go:41-45 | Adds one edge to the abstract graph and keeps both edge lists and the counters consistent with it |
| Dag.Dag.HasNext | libs/dag/dag.go:55-57 | Holds exactly while vertices are left |
| Dag.Dag.CountDown | libs/dag/dag.go:59-81 | Counts down the successors of one vertex and queues exactly those that reach zero |
| Dag.Dag.CollectRoots | libs/dag/dag.go:59-81 | The first level is every vertex without predecessors |
| Dag.Dag.CollectFreed | libs/dag/dag.go:59-81 | A later level is every vertex freed by the previous one |
| Dag.Dag.Next | libs/dag/dag.go:59-81 | Hands out, without repetition, exactly the vertices not handed out before whose predecessors all were |
| TxDag.CompleteIffNoGap | ethereum/core/parallel_tx_dag.go:24-86 | Every two conflicting transactions are ordered by a path if and only if no two successive contracts are separated by transactions with unresolvable senders only |
| TxDag.EdgesNeeded | ethereum/core/parallel_tx_dag.go:36-71 | Every edge joins two conflicting transactions, or an unresolvable one with the contract after it |
| TxDag.GapUnordered | ethereum/core/parallel_tx_dag.go:31-49 | Two contracts around such a gap are not ordered |
| TxDag.ConflictReaches | ethereum/core/parallel_tx_dag.go:36-70 | Without a gap, the earlier of two conflicting transactions reaches the later one |
| TxDag.SharedAccountReaches | ethereum/core/parallel_tx_dag.go:53-70 | Two transfers on one account with no contract between them are linked |
| TxDag.TxDag.LinkContract | ethereum/core/parallel_tx_dag.go:38-52 | Draws exactly the edges of a contract: from everything since the previous contract, or from its direct neighbour |
| TxDag.TxDag.LinkTransfer | ethereum/core/parallel_tx_dag.go:53-70 | Draws exactly the edges of a transfer: from the last uses of its two accounts, else from the previous contract |
| TxDag.TxDag.MakeDagGraph | ethereum/core/parallel_tx_dag.go:24-86 | The graph built with the address map and the cache of created contracts is the graph defined from the transaction list alone |
| TxDag.KindFromCache | ethereum/core/parallel_executor.go:233-245 | The contract test with its cache answers as if it looked at all earlier creations |
| Ledger.StepsCommute | ethereum/core/parallel_executor.go:152-210 | Two transactions that do not conflict leave the same ledger in either order |
| Ledger.MoveToEnd | ethereum/core/parallel_executor.go:85-130 | A transaction moves past any transactions it does not conflict with |
| Ledger.ReorderedRun | ethereum/core/parallel_executor.go:85-130 | Any order of the transactions that keeps conflicting ones in list order gives the ledger of list order |
| Ledger.ContractRuns | ethereum/core/parallel_executor.go:212-231 | In a run in turn, with gas for it, a contract leaves the state its call returns and pays for the gas it used up to its limit; refused, the state before it; without gas for it, nothing happens |
| Ledger.TransferRuns | ethereum/core/parallel_executor.go:152-210 | In a run in turn, with gas for it, a transfer goes through if and only if the sender is known, has the right nonce and covers full gas as well as value and fee, and the limit covers the gas; it then moves value and fee between its accounts and nothing else, otherwise nothing |
| Ledger.RunTidy | ethereum/core/parallel_executor.go:138-139 | No empty account is ever stored, if contract code stores none |
| Batch.BatchAsRun | ethereum/core/parallel_executor.go:95-127 | Working out a batch of independent transfers on copies of the batch-start accounts and merging equals executing them in turn |
| Batch.MergeKeepsGas | ethereum/core/parallel_context.go:206-248 | Merging turns held gas into used gas or hands it back; none appears or vanishes |
| Batch.MergeKeepsFunds | ethereum/core/parallel_context.go:206-248 | Merging moves funds between accounts and to the miner's earnings only, for every batch, self-transfers and failures included |
| Batch.TransferKeepsFunds | ethereum/core/state/statedb.go:1092-1120 | Writing back one transfer, whoever the parties are, keeps the sum of all balances up to the fee |
| Levels.LevelIndependent | ethereum/core/parallel_tx_dag.go:92-94 | Two transactions of one level never conflict |
| Levels.LevelKeepsConflicts | ethereum/core/parallel_executor.go:85-130 | Handing out the next level keeps conflicting transactions in list order |
| Levels.ContractsAloneIff | ethereum/core/parallel_tx_dag.go:31-70 | Over the whole peeling every level with a contract holds nothing else, if and only if no two successive contracts are separated by unresolvable transactions only and a list that starts with a contract has no unresolvable sender |
| Levels.SharedLevelNoContract | ethereum/core/parallel_executor.go:92-94 | Under that condition, from any state of the peeling, a contract does not share the next level |
| Levels.GapShares | ethereum/core/parallel_tx_dag.go:31-49 | A contract behind a gap always shares its level |
| Levels.SharedFirstLevel | ethereum/core/parallel_tx_dag.go:31-35 | A concrete list whose leading contract shares the first level with an unresolvable transaction |
| Levels.TwoContractsInOneLevel | ethereum/core/parallel_tx_dag.go:39-47 | A concrete list with two contracts in one level |
| Workers.InterleavingIrrelevant | ethereum/core/parallel_executor.go:152-210 | However the steps of the workers interleave on live account objects, the outcome is that of copies of the batch-start accounts merged afterwards |
| Workers.BatchUnderAnySchedule | ethereum/core/parallel_executor.go:95-127 | The accounts a batch leaves as specified, with gas for all, are those any interleaving of its workers leaves on the live objects |
| Workers.InvRun | ethereum/core/state/parallel_statedb.go:16-44 | Along every interleaving each worker has touched its own two accounts only, each as its own steps alone would |
| Receipts.IndexReceipts | ethereum/core/parallel_state_processor.go:97-104 | The map finds every receipt under its transaction's hash |
| Receipts.SortReceipts | ethereum/core/parallel_state_processor.go:97-116 | The sorted receipts are those collected, in the order of their transactions in the list; each carries the gas of all receipts up to and including itself, the last one the gas of all |
| Receipts.SortKeepsReceipts | ethereum/core/parallel_state_processor.go:97-116 | Sorting permutes the receipts and keeps their hashes and gas |
| Executor.ParallelContext.constructor | ethereum/core/parallel_context.go:47-60 | A context that has not started |
| Executor.ParallelContext.IsTimeout | ethereum/core/parallel_context.go:156-163 | The deadline has passed exactly if a block is being packed and the clock says so at this reading |
| Executor.ParallelContext.AddGas | ethereum/core/gaspool.go:13-19 | Adds to the pool, with the overflow that panics ruled out by the callers |
| Executor.ParallelContext.SubGas | ethereum/core/gaspool.go:23-29 | Takes gas exactly if the pool holds enough, else changes nothing |
| Executor.ParallelContext.ExecuteParallelTx | ethereum/core/parallel_executor.go:152-210 | A worker's result is the outcome of the transfer on the batch-start state, or nothing after the deadline |
| Executor.ParallelContext.DispatchOne | ethereum/core/parallel_executor.go:95-124 | Takes the gas of one transfer and starts its worker, with every way of being skipped or refused; no transfer is skipped unless a deadline passes or its sender was left out |
| Executor.ParallelContext.Dispatch | ethereum/core/parallel_executor.go:95-125 | After the workers, every transfer has its result and the pool has lost exactly the gas held |
| Executor.ParallelContext.MergeResult | ethereum/core/parallel_context.go:206-248 | One result goes into state, receipts, gas used, earnings and pool as the specification of a merge says |
| Executor.SenderPoppedIff | ethereum/core/parallel_context.go:233-245 | A worker's failure leaves the sender out of a new block if and only if the nonce is ahead, after signature, gas limit and full gas were checked |
| Executor.ParallelContext.BatchMerge | ethereum/core/parallel_context.go:206-248 | A batch is merged result by result, in batch order |
| Executor.ParallelContext.ExecuteBatch | ethereum/core/parallel_executor.go:95-128 | One batch: equal to its transactions in turn with gas for all; funds and gas conserved in every mode |
| Executor.ParallelContext.ExecuteContractTransaction | ethereum/core/parallel_executor.go:212-231 | Unless the deadline has passed and with gas for it: if the call runs, the state is the one it returns, and gas used, pool and one new receipt say the gas it used up to its limit; if it is refused, or without gas for it, state and receipts stay |
| Executor.ParallelContext.ExecuteLevel | ethereum/core/parallel_executor.go:88-128 | A level runs as one contract or as a batch of transfers |
| Executor.ParallelContext.ExecuteLevels | ethereum/core/parallel_executor.go:85-130 | The loop ends with every transaction handed out once, in an order that keeps conflicts, and the ledger of that order |
| Executor.ParallelContext.AddMinerEarnings | ethereum/core/parallel_executor.go:134-136 | Pays the collected fees to the miner and touches no other account |
| Executor.ParallelContext.ExecuteTransactions | ethereum/core/parallel_executor.go:73-150 | With gas for all, on a received block, or packing as long as no deadline passes and no sender is left out: the ledger of list order with the miner paid at the end. On transfers, in every mode: funds conserved, no balance negative, pool plus used gas never more than before, and equal under the same condition |
| Executor.OrderIrrelevant | ethereum/core/parallel_executor.go:85-130 | The order in which levels came does not show in the result |
| Executor.CreditKeepsFunds | ethereum/core/parallel_executor.go:134-136 | Paying the miner completes the conservation of funds |
| Executor.Process | ethereum/core/parallel_state_processor.go:29-95 | State, receipts in list order and gas used of a received block are those of serial execution; in any case the receipts stand in list order with running totals, the last of which is the gas used |
| Transition.TransferAccepted | ethereum/core/state_transition.go:171-284 | The transaction-at-a-time processor accepts a transfer if and only if the pool holds its gas limit, the batch executor's checks pass and the sender could pay value and full gas together |
| Transition.TransferAgrees | ethereum/core/state_transition.go:206-306 | A transfer both accept leaves the same accounts, the miner's fee included |
| Transition.PrefixAgreesIff | ethereum/core/state_processor.go:64-77 | By prefixes: while the miner covers its own transfers without the fees of the block, accounts, gas and pool agree; otherwise a success is missing in the batch executor |
| Transition.PassesIffCovered | ethereum/core/parallel_executor.go:176-194 | From agreeing ledgers, an accepted transfer passes the batch checks if and only if the miner does not send it or covers full gas, and value and fee, without the fees earned so far |
| Transition.AcceptedBlockAgreesIff | ethereum/core/state_processor.go:64-77 | A block of transfers accepted one at a time ends with the same accounts and gas in the batch executor, if and only if the miner covers each of its own transfers without the fees earned in the block |
| Transition.SpentFeeInTurn | ethereum/core/state_transition.go:206-284 | A concrete block in which the miner spends a fee earned in it, one transaction at a time |
| Transition.SpentFeeInBatches | ethereum/core/parallel_executor.go:134-136 | The same block in the batch executor: the fee comes too late |
| Transition.GasAndValueTogether | ethereum/core/parallel_executor.go:176-194 | A concrete transfer that the batch executor accepts and the other processor refuses |
| ChainIndexer.SectionHeadsStayLinked | ethereum/core/chain_indexer.go:226-399 | From an empty index, in every run in which a failed reset and a notice do not cut the index back at the same time with something stored, whenever neither does, heads exist for exactly the stored sections and each is the ancestor of every later one at the exact distance |
| ChainIndexer.OverlapsHarmlessIff | ethereum/core/chain_indexer.go:226-399 | Over any run, every overlap of the two is harmless, that is, whatever follows short of another failed reset the heads are on one chain whenever nothing is cut back, if and only if none happens with something stored or the section size is at least 2^64 - 1 |
| ChainIndexer.IdleHarmless | ethereum/core/chain_indexer.go:374-376 | A failed reset that finds nothing stored is harmless, in the middle of a notice or not |
| ChainIndexer.KeepingHarms | ethereum/core/chain_indexer.go:440-452 | From any overlap with something stored and left to remove by the reset, with a notice that keeps a section: the reset and then the notice end, and the index has a section without a head |
| ChainIndexer.RemovingHarms | ethereum/core/chain_indexer.go:440-452 | The same with a notice that keeps nothing: it ends first, the count wraps around below 0, and a second notice meets the first case |
| ChainIndexer.FirstOnlyHarmless | ethereum/core/chain_indexer.go:226-399 | With sections that take in every block number no overlap does harm |
| ChainIndexer.OverlapLosesHeads | ethereum/core/chain_indexer.go:374-376 | A run with such an overlap, step by step, after which a section is stored without a head |
| ChainIndexer.ClearStepKeeps | ethereum/core/chain_indexer.go:440-452 | Each step of cutting the index back leaves heads for exactly the sections not yet removed, and the last one a linked index |
| ChainIndexer.ClearingAddsUp | ethereum/core/chain_indexer.go:440-452 | Undisturbed, the steps together remove exactly the heads from the target up |
| ChainIndexer.StepKeeps | ethereum/core/chain_indexer.go:226-399 | Every step that does not start an overlap with something stored keeps the invariant behind it, with a section in progress or not and in the middle of cutting back |
| ChainIndexer.RunKeeps | ethereum/core/chain_indexer.go:226-399 | So does every run without such an overlap |
| ChainIndexer.WithinKnownStep | ethereum/core/chain_indexer.go:300-350 | Stored sections stay within the known ones over a step, if and only if it does not commit a section beyond them |
| ChainIndexer.WithinKnownRun | ethereum/core/chain_indexer.go:300-350 | Over a run they do all along, if and only if no event commits one |
| ChainIndexer.StoredMayExceedKnown | ethereum/core/chain_indexer.go:300-350 | A concrete run after which more sections are stored than known |
| ChainIndexer.Indexer.constructor | ethereum/core/chain_indexer.go:85-108 | An empty index |
| ChainIndexer.Indexer.SetValidSections | ethereum/core/chain_indexer.go:440-452 | Sets the stored count and removes exactly the heads above it |
| ChainIndexer.Indexer.NewHead | ethereum/core/chain_indexer.go:226-283 | A whole notice, undisturbed. After a head a section is known if and only if it was or its last block has the required confirmations, and nothing else changes; after a reorganisation sections are known and stored if and only if they were and end below it, heads are kept for exactly those, and the cascaded head falls back to the start of a section; the index stays linked |
| ChainIndexer.Indexer.BeginUpdate | ethereum/core/chain_indexer.go:300-320 | There is a section to process exactly if more are known than stored; it is the first one not stored, and builds on the last stored head |
| ChainIndexer.Indexer.ProcessSection | ethereum/core/chain_indexer.go:369-399 | Succeeds exactly if the section's headers link up from the old head, and returns the last of them |
| ChainIndexer.Indexer.FinishUpdate | ethereum/core/chain_indexer.go:328-350 | The processed section is committed if and only if processing succeeded and the index was not cut back below it meanwhile; otherwise the known sections fall back to the stored ones |
| HeaderChain.Chain.constructor | ethereum/core/headerchain.go:56-91 | A chain that holds its genesis |
| HeaderChain.Chain.DeleteAbove | ethereum/core/headerchain.go:134-140 | Deletes canonical entries upwards to the first gap |
| HeaderChain.Chain.RewriteBelow | ethereum/core/headerchain.go:144-155 | Ends, having made the path below the new header canonical |
| HeaderChain.Chain.WriteHeader | ethereum/core/headerchain.go:116-173 | Whichever way the coin falls, the canonical map stays exactly the parent path of the current header and no stored header is higher |
| HeaderChain.Chain.InsertHeaderChain | ethereum/core/headerchain.go:237-256 | A batch of linked headers keeps that; all of them are stored and nothing else, up to an interruption |
| HeaderChain.Chain.GetAncestor | ethereum/core/headerchain.go:303-333 | For every distance, 0 and 1 included: a known header with an answer gets exactly its ancestor by parent hashes; the request fails exactly beyond the height, for an unknown header, or if the steps to the canonical chain exceed the budget, and the budget left is what was not walked |
| HeaderChain.DetourLeast | ethereum/core/headerchain.go:315-331 | The steps charged to the budget are the fewest that lead to a canonical ancestor |
| HeaderChain.JumpAnswers | ethereum/core/headerchain.go:315-323 | On the canonical chain the index gives the ancestor in one jump |
| BlockChain.Chain.constructor | ethereum/core/genesis.go:473-477 | A chain of its genesis alone, index and lookup exact |
| BlockChain.Chain.ReduceNew | ethereum/core/blockchain.go:1623-1628 | Walks the new branch down to the height of the current block, or finds it broken |
| BlockChain.Chain.FindFork | ethereum/core/blockchain.go:1614-1654 | Ends with exactly the two branches above the highest common ancestor and the old branch's transactions; fails exactly if the new branch does not reach the genesis |
| BlockChain.Chain.Insert | ethereum/core/blockchain.go:634-653 | Index entry and current block, and the other heads exactly if the block was not canonical |
| BlockChain.Chain.WriteTxLookupEntries | ethereum/core/db/rawdb/accessors_indexes.go:41-48 | Every transaction of the block maps to its number, all else unchanged |
| BlockChain.Chain.InsertBranch | ethereum/core/blockchain.go:1669-1677 | The index gets the branch above the fork, the lookup its transactions, and all heads end on its top |
| BlockChain.Chain.DeleteDropped | ethereum/core/blockchain.go:1678-1686 | Deletes exactly the entries of dropped transactions that were not added again |
| BlockChain.Chain.Reorg | ethereum/core/blockchain.go:1587-1686 | The index becomes the path of the new head and the lookup the switched one, or nothing changes if the branch is not connected |
| BlockChain.Chain.WriteBlockWithState | ethereum/core/blockchain.go:1247-1404 | Lower blocks are ignored; a higher one becomes the head exactly if connected, with the index its path, the heads aligned and the lookup switched |
| BlockChain.Chain.WriteBlocks | ethereum/core/blockchain.go:1247-1404 | Over any blocks in any order the index is the path of the current block; the lookup is exact after every write if and only if no switch on the way drops a transaction that also sits below its fork, and so it is if no path repeats a transaction |
| BlockChain.ExactRunIff | ethereum/core/blockchain.go:1669-1686 | The same of any run of writes, given by its states and lookups |
| BlockChain.SwitchExactIff | ethereum/core/blockchain.go:1669-1686 | After a switch the lookup is exact if and only if no dropped transaction also sits below the fork |
| BlockChain.SwitchExactOnce | ethereum/core/blockchain.go:1669-1686 | Where no path repeats a transaction, every switch keeps the lookup exact |
| BlockChain.RepeatedTransactionLost | ethereum/core/blockchain.go:1678-1686 | A concrete chain and lookup, exact before the switch, that loses the entry of a transaction still on the path |
| BlockChain.ForkFound | ethereum/core/blockchain.go:1636-1654 | Two walks that meet, having last passed different blocks, have found the highest common ancestor |
| BlockChain.WriteBranch | ethereum/core/blockchain.go:1669-1677 | Writing a branch from below leaves each of its transactions with its highest block |
| Quorum.HonestInBoth | consensus/pbft/pbft.go:1356-1358 | Any two quorums share a validator that is not faulty |
| Quorum.ThresholdTight | consensus/pbft/pbft.go:1356-1358 | One vote less than the threshold would not do, if and only if the number of validators is not a multiple of 3 |
| Voting.Voter.TrySend | consensus/pbft/consensus_process.go:501-545 | A vote is sent exactly if view, deadline and block tree allow it and its slot is after that of the last one sent; the record stays the last vote |
| Voting.Voter.Drive | consensus/pbft/rules/vote_rules.go:46-69 | However views change and whatever is offered, at most one vote per number, epoch and view is ever sent |
| Aggregates.VerifiesIff | consensus/pbft/validator/validator.go:631-662 | An aggregate verifies against the bits set exactly if there is a signer, and every signer has a bit and signed the payload |
| Certificates.GenerateQC | consensus/pbft/pbft.go:1718-1826 | For every visiting order: no certificate exactly if there are no votes, two disagree or a signature does not decode; else the voters' bits, all their signatures and the fields of some vote |
| Certificates.CertificateDetermined | consensus/pbft/pbft.go:1718-1826 | The certificate is the same whatever the order, if and only if the votes share the view |
| Certificates.AcceptedIff | consensus/pbft/pbft.go:1881-1912 | A generated certificate is accepted for a block by a node with the same validators, if and only if it is the block voted for, the epoch is the node's own or the one before, and the votes reach the threshold, come from known validators and share the view |
| Certificates.OneBlockEach | consensus/pbft/pbft.go:1895-1900 | No certificate is accepted for two different blocks, by whatever nodes |
| Certificates.FindQC | consensus/pbft/consensus_process.go:617-679 | On the threshold path a certificate comes out exactly if the votes agree and decode, has exactly the voters' bits, and is accepted for the block voted for and no other, exactly if the votes share the view and the epoch is current |
| Certificates.MixedViewsRejected | consensus/pbft/protocols/protocol.go:253-258 | A concrete pair of votes of two views whose certificate no node accepts |
| Certificates.CertificateUnique | consensus/pbft/pbft.go:1881-1912 | With at most a third faulty and the others voting by the rule, no two blocks of one number have certificates that verify in one step, epoch and view |
| ViewChange.GenerateViewChangeQC | consensus/pbft/pbft.go:1828-1879 | For every visiting order: no result exactly if a signature does not decode; else one certificate for each block reported |
| ViewChange.CertFields | consensus/pbft/pbft.go:1845-1863 | Each certificate carries epoch, view, block and the block's own epoch and view as one of its view changes reports them |
| ViewChange.VotersPartitioned | consensus/pbft/pbft.go:1828-1879 | Hashes are distinct and every voter is in exactly one certificate, that of the block it reports |
| ViewChange.MaxBlock | consensus/pbft/types/crypto.go:197-209 | A certificate of the highest block, by number, epoch and view |
| ViewChange.Len | consensus/pbft/types/crypto.go:211-217 | The signatures of all certificates |
| ViewChange.ValidateViewChangeQC | consensus/pbft/pbft.go:1914-1951 | Accepts exactly certificates of one view for distinct blocks, no more than validators, with enough signatures |
| ViewChange.CheckViews | consensus/pbft/pbft.go:1930-1950 | The loop over views and hashes finds exactly one view and distinct hashes |
| ViewChange.GeneratedAccepted | consensus/pbft/pbft.go:1914-1951 | A generated result passes validation if and only if the view changes reach the threshold |
| ViewChange.GeneratedVerified | consensus/pbft/pbft.go:1953-1982 | Its signatures verify if and only if voters that report one block agree on everything they signed |
| ViewChange.HeightKept | consensus/pbft/pbft.go:1828-1982 | If a quorum holds height h and its honest members report so, any result made of a quorum whose signatures verify has a certificate at h or above, and so has its highest block, whatever the faulty voters report |
| ViewChange.HeightKeptIff | consensus/pbft/pbft.go:1828-1879 | For all view changes, every result has a certificate at height n or above, if and only if some reported block is given such a number by all its reporters |
| ViewChange.MisnumberedLowers | consensus/pbft/pbft.go:1845-1868 | Three concrete view changes of one block, one with number 0: visited first it lowers the only certificate, which carries all three voters and does not verify |
| ViewChange.ResultHasOrder | consensus/pbft/pbft.go:1840-1869 | Every result that the aggregation allows comes from an order of visiting the voters in which each certificate is led by the first that reports its block |
| ChainLog.Wal.constructor | consensus/pbft/wal_bridge.go:95-112 | An empty log |
| ChainLog.Wal.NewChainState | consensus/pbft/wal_bridge.go:135-152 | Writes exactly if the three states are valid and the lock is the child of the commit |
| ChainLog.Wal.UpdateChainState | consensus/pbft/wal_bridge.go:95-165 | The new log in every case; sound updates keep the lock the child of the commit and the certified blocks at one height, the lock's or the next; the commit height moves by 0 or 1 |
| ChainLog.Wal.Drive | consensus/pbft/wal_bridge.go:95-165 | Over every run of sound updates up to a panic, every log on the way is so |
| ChainLog.Recover | consensus/pbft/wal_bridge.go:260-332 | From such a log recovery succeeds if and only if the chain head is the commit or its parent, and executes commit, lock and certified blocks each on its own parent |
| BlockTree.Tree.constructor | consensus/pbft/types/block_tree.go:115-137 | A tree of its root alone |
| BlockTree.Tree.FixTree | consensus/pbft/types/block_tree.go:334-373 | Links a node to its live parent, and to a live child if it has one, and changes nothing else |
| BlockTree.Tree.MaxBlock | consensus/pbft/types/block_tree.go:320-331 | A block of the highest view at the height, among those with a parent and the given one |
| BlockTree.Tree.InsertQCBlock | consensus/pbft/types/block_tree.go:140-155 | For every new block, lock is of the highest view at its height among linked blocks and commit the parent link of the lock; a block on a live parent joins the tree with links both ways; one above all others is the lock, with or without a parent; a known block changes nothing |
| BlockTree.AddedShape | consensus/pbft/types/block_tree.go:283-300 | A new block on a live parent has no children yet, and linking it keeps the shape of the tree |
| BlockTree.Tree.DropBelow | consensus/pbft/types/block_tree.go:158-161 | Removes exactly the levels below a height |
| BlockTree.Tree.PruneBranch | consensus/pbft/types/block_tree.go:269-281 | Removes exactly the descendants of a node, by its child links |
| BlockTree.Tree.PruneOthers | consensus/pbft/types/block_tree.go:162-172 | Removes every other node of the level and all their descendants |
| BlockTree.Tree.PruneBlock | consensus/pbft/types/block_tree.go:158-173 | Leaves exactly the new root and its descendants, again a tree; also where blocks without parents are around, everything not lower than a root alone at its height |
| BlockTree.KeptIsFamily | consensus/pbft/types/block_tree.go:158-173 | Without lower levels and the families of the other nodes of a level, what is left is the family of the one node |
| BlockTree.KeptShape | consensus/pbft/types/block_tree.go:158-173 | The family of a node is a tree with that node as its root |
| BlockTree.FamilyOfChildren | consensus/pbft/types/block_tree.go:269-281 | The descendants of a node are the families of its children |
| Committing.ChainedIff | consensus/pbft/consensus_process.go:727-763 | Over any blocks taken in, the committed ones are a chain, each the child of the one before, if and only if the run does not begin, with nothing locked above the commit, with a block one higher that is no child of the commit followed by a child of that block |
| Committing.SlipCommits | consensus/pbft/consensus_process.go:741-744 | After any start, two blocks certified by the node's own votes that do so are both taken in, and the first is committed without being a child of the start |
| Committing.Engine.constructor | consensus/pbft/pbft.go:234-242 | An engine whose heads are its root, nothing committed, nothing logged |
| Committing.Engine.TrySetHighestLockBlock | consensus/pbft/consensus_process.go:337-344 | The lock moves exactly if the present one has no certificate in the tree or the new one is higher, by number, epoch and view |
| Committing.Engine.TryCommitNewBlock | consensus/pbft/consensus_process.go:727-763 | After a child of the lock is inserted, commits the former lock exactly if it is next to the commit by its number, prunes the tree to it and writes the log; fails only if the log cannot be written |
| Committing.Engine.InsertQCBlock | consensus/pbft/consensus_process.go:272-311 | A certified block above the lock becomes the lock, and the former lock is committed exactly if the block is its child and it is next to the commit; one that is no child of the lock commits and logs nothing; tree, heads and log stay in step |
| Committing.Engine.InsertPreCommitQC | consensus/pbft/consensus_process.go:346-378 | Takes in a block exactly if it was executed, is linked, new and above the lock, and it is then the child of the lock |
| Committing.Engine.Take | consensus/pbft/consensus_process.go:244-265 | A certified block from a peer, from the own votes or from synchronisation is refused exactly if it is not above the lock or known, or its parent is not in the tree where the source asks for it: at the height below for a peer, by hash alone for synchronisation, and not at all for the own votes |
| Committing.Engine.Drive | consensus/pbft/consensus_process.go:244-378 | Whatever certified blocks arrive from these sources, in any order, up to a failed write, the heads and the committed blocks are those of the blocks accepted in turn, tree and log stay in step, and the committed blocks are a chain under exactly the condition above |
| Committing.Engine.RecoverFrom | consensus/pbft/wal_bridge.go:260-332 | At any time recovery from the engine's log succeeds if and only if the chain on disk ends at the highest commit or its parent, each block executed on its own parent |
| Committing.GrownSound | consensus/pbft/pbft.go:1360-1388 | The update written with a commit is sound: the certified block is the lock and the lock the child of the commit |
| Proposer.FormulasAgreeIff | consensus/pbft/pbft.go:1452-1477 | The proposer formulas agree from block 1 on; at the genesis only if the wrapped subtraction happens to give 0 |
| Proposer.TurnMovesOn | consensus/pbft/pbft.go:1164-1188 | The first block is the first validator's; the turn moves on to the next validator with every block and with every ten views, unless the 64-bit sum wraps around |
| Proposer.ViewsFairIff | consensus/pbft/pbft.go:1164-1188 | At a fixed block number, any 10 n consecutive views give each of n validators exactly ten turns, if and only if the 64-bit sum does not wrap around within them or n divides 2^64 |
| Proposer.NumbersFairIff | consensus/pbft/pbft.go:1164-1188 | At a fixed view, any n consecutive block numbers give each validator exactly one turn, under the same condition |
| GasLimit.NothingWraps | ethereum/core/block_validator.go:103-131 | For limits from 1024 up, as long as no sum reaches 2^64, the 64-bit computation is that of unbounded integers |
| GasLimit.LargestLimit | ethereum/core/block_validator.go:103-131 | No gas used up to a limit makes a sum reach 2^64, if and only if the limit is at most 0xAAAAAAAAAAAAAAAA |
| GasLimit.StepTowards | ethereum/core/block_validator.go:103-131 | A limit in the range stays in it; one outside moves strictly towards it and not past its far end |
| GasLimit.Absorbed | ethereum/core/block_validator.go:103-131 | Whatever gas the blocks use, the limit enters the range within as many blocks as its distance and never leaves |
| GasLimit.StepBoundedIff | ethereum/core/block_validator.go:103-131 | One block changes the limit by at most a 1024th for all gas used and all ranges, if and only if the limit is below 2731 or at least 3072 |
| DerivationPath.PrintPath | ethereum/accounts/hd.go:105-119 | The loop prints m and every component, hardened ones with an apostrophe |
| DerivationPath.ParsePath | ethereum/accounts/hd.go:51-101 | The loop parses absolute and relative paths, every component within 32 bits, with all error cases |
| DerivationPath.ComponentRoundTrip | ethereum/accounts/hd.go:74-97 | Every component, hardened or not, parses back from its printed form |
| DerivationPath.ComponentRange | ethereum/accounts/hd.go:74-97 | A number is a component exactly if it fits 32 bits, the hardened offset included; negative ones are refused |
| DerivationPath.PrefixedRoundTrip | ethereum/accounts/hd.go:83-87 | Hexadecimal, binary and octal numbers parse back under their prefixes |
| DerivationPath.BlanksIgnored | ethereum/accounts/hd.go:74-82 | Whitespace around a component is ignored |
| DerivationPath.AmbiguousRefused | ethereum/accounts/hd.go:60-61 | A path that is blank, or blank up to its first slash, is refused |
| DerivationPath.DefaultRoot | ethereum/accounts/hd.go:14 | The default root prints as m/44'/60'/0'/0 |
| DerivationPath.RoundTrip | ethereum/accounts/hd.go:51-119 | Parsing the printed form returns the path, if and only if the path is not empty |
| DerivationPath.RelativeRoundTrip | ethereum/accounts/hd.go:51-101 | What follows m/ in a printed path is parsed relative to the default root |

## Left out

- Agreement between nodes across views: it rests on the safety rules and view state of the consensus engine, which are not part of this model.
- Networking, message fetching, channels, timers, latency averages, metrics and logging.
- The internals of BLS signatures, hashing, EVM and WASM execution, tries, snapshots, caches, the freezer and database batching.
- The packed words of the bit array in a certificate; the model has the set of indices they stand for.
- Executor.Process: the begin and end hooks of a block, logs and the state root are left out. It requires the condition of `Levels.ContractsAloneIff`: on other lists a contract gets into a batch and is executed as a plain transfer, which is not modelled.
- Executor.ParallelContext.constructor: excludes a contract creation whose sender cannot be resolved; the original dereferences its missing recipient when it logs the failed transfer and crashes.
- Executor.ParallelContext.ExecuteTransactions: once a deadline passes or a sender is left out of a new block, the set of executed transactions depends on the clock, and equality with list order is not stated; conservation holds in every mode.
- Transition.AcceptedBlockAgreesIff: speaks of blocks accepted one transaction at a time; a block that processor refuses may be processed by the batch executor, as `Transition.GasAndValueTogether` shows.
- Workers.BatchUnderAnySchedule: stated for batches in which every worker starts; a transaction with unknown sender or intrinsic gas touches no account.
- ChainIndexer.SectionHeadsStayLinked: checkpoints, restart from a stored index and child indexers are not modelled.
- BlockChain.Chain.Reorg: the branch for an old chain higher than the new one is not modelled, since the only caller passes a higher block; removed-log events are not modelled.
- BlockChain.Chain.WriteBlockWithState: state commits, receipts and the random choice between blocks of equal height are not modelled; the guard at the top of the method makes the choice unreachable.
- Voting.Voter.Drive: the record of the last vote is not carried through a restart; replay of the log after a crash is not modelled.
- BlockTree.Tree.PruneBranch: clearing the links of removed nodes is left out, since no live node points at them.
- Committing.Engine.InsertQCBlock: what later blocks do after one whose certificate is for another block is not modelled. The log is written as part of the call, not by a later callback.
- Committing.Engine.Drive: starts from an engine with an empty log; a restart in between is covered by recovery only.
- Certificates.CertificateUnique: speaks of one slot; nothing is stated about certificates of different views.
- ChainLog.Recover: failures of block execution during recovery, and the engine's heads it sets, are not modelled.
- Command line, web interface, configuration tables, genesis construction, account manager: thin wrappers or constants.
