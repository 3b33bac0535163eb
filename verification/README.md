# Verified model of the node's state machines

This project models the parts of the Miden node in which a mistake loses or duplicates a
transaction, and proves what they promise, in Dafny 4.11. `dafny verify dfyconfig.toml` checks
everything.

Four components are modelled, each from its own source file outwards.

* **The block producer's mempool.** `Dag.dfy` says what a dependency graph means (parents, data,
  processed nodes); `DependencyGraph.dfy` is the class with its pending set, root set, child map and
  work-list traversals, proved to compute it. `Transactions.dfy` and `InflightCore.dfy` say what the
  in-flight state means (recent blocks and a list in arrival order); `InflightState.dfy` is the
  class with account stacks, note states and deltas. `TransactionGraph.dfy`, `BatchGraph.dfy`,
  `Expirations.dfy` and `Subscription.dfy` are the other components, and `Mempool.dfy` the class
  that ties them together. Its methods are proved against the steps in `MempoolModel.dfy`, in which
  an `expect` that fires is `None`. `MempoolRevert.dfy`, `MempoolSteps.dfy` and `MempoolRuns.dfy`
  prove one invariant across all components (the batch graph is the quotient of the batched part of
  the transaction graph, `Quotient.dfy`), and from it the properties of whole runs.
  `MempoolProperties.dfy` relates operations to each other, `MempoolOutcomes.dfy` tells by paths
  what reverts and rollbacks leave, `MempoolChain.dfy` follows accounts, notes and tracked blocks
  over runs, and `MempoolEvents.dfy` what subscribers hear about blocks.
* **The store's `apply_block` handshake.** `Store.dfy` is a state machine over the steps between
  awaits: the call, the database tasks it spawned (which may outlive it), readers, failures and
  dropped calls. `StoreLedger.dfy` says which lists of blocks are a chain, `StoreTables.dfy` what
  the tables hold for them and which block is accepted next, in terms of the blocks alone.
  `StoreProtocol.dfy` has the invariant, `StoreRuns.dfy` the properties of runs, `StoreReads.dfy`
  the reads that touch the database, memory and the database again, `StoreGuards.dfy` the requests
  that take a read guard while they hold one, and `StoreProgress.dfy` how a call ends.
* **The network transaction builder.** `NtxAccount.dfy` is the account class, `NtxUndo.dfy` the
  order-free undo, `NtxState.dfy` the state class, `NtxSelection.dfy` the rotating queue,
  `NtxRevert.dfy` what reverts need to hold up, `NtxInvariant.dfy` what every event keeps,
  `NtxEffects.dfy` what each does to states and notes, and `NtxRuns.dfy` and `NtxTrace.dfy` the runs
  over the stream of mempool events.
* **The faucet's proof of work.** `FaucetChallenge.dfy` is the challenge codec, `FaucetCache.dfy`
  the cache class, `FaucetPow.dfy` difficulty and runs of submissions.

Ids, commitments and notes are natural numbers ordered as numbers. Hashes, signatures and proofs are
functions; where a theorem needs one to be injective it says so.

## What the proofs show about the code

Some things one would expect do not hold of the code as it is. Each is stated exactly.

* A batch's id is derived from its contents, so a batch that is rolled back and selected again has
  its old id; when the proofs of both attempts arrive the second one panics
  (`MempoolProperties.StaleProofPanics`; `MempoolSteps.CommitBatchPanics` says exactly when a proof
  does).
* Adding a transaction panics exactly when it passes verification under the id of an uncommitted one
  (`MempoolSteps.AddPanics`). A tracked transaction that is submitted again passes only if it has no
  notes and its account is in the state that it starts from (`InflightCores.ResubmissionRejected`);
  one that was reverted may be submitted again. Right after it was accepted, a transaction makes the
  mempool panic by a second copy exactly when it has no notes and changes nothing
  (`MempoolProperties.SecondCopyPanics`, `MempoolProperties.SecondCopyFromEmpty`).
* Rolling back a batch of the block in progress makes committing the block panic, and no other
  rollback does (`MempoolProperties.RollbackThenCommit`).
* `TransactionExpirations::insert` of a tracked transaction under another height breaks the inverse
  index (`Expirations.TransactionExpirations.Insert` says exactly when the two maps stay inverse);
  the mempool never does that.
* A call of `apply_block` that is dropped while it waits under the write lock leaves the database
  ahead of memory with nothing locked (`StoreRuns.DroppedGrant`); it can be dropped safely exactly
  otherwise (`StoreRuns.DropIsSafe`).
* `get_current_blockchain_data` takes the read lock while it holds it, though only if it was given a
  block number. A request can end up behind a writer that waits for it exactly in that case, from
  any state in which it comes in (`StoreGuards.StallsExactly`, `StoreGuards.StallsFromLoad`), and
  its second guard is refused exactly while a writer is queued (`StoreGuards.SecondGuardWaits`).
  From then on neither ever proceeds and no reader gets in, unless the call or the request is
  dropped (`StoreGuards.StallIsForever`). It is the only way for a call to get stuck: without
  arrivals and drops every call comes to an end or to this (`StoreRuns.HandshakeNeverStuck`,
  `StoreProgress.CallEnds`).
* The builder's queue is documented to hold all accounts. Reverting an account's creation drops the
  account and keeps its entry (`NtxRevert.RevertCovers`). The next search panics exactly when
  nothing selectable comes before that entry and the account is not busy
  (`NtxRevert.RevertedCreationPanics`).
* Reverting transactions in the order of their ids panics exactly when a creator of a note comes
  before its consumer (`NtxRevert.RevertPanicsIffCreatorFirst`), which two transactions bring about
  from the empty builder (`NtxRevert.CreatorFirstPanics`).
* The builder indexes a note even if the note's account is unknown. When the account is created
  later, consuming the note panics (`NtxRuns.EarlyNotePanics`; `NtxInvariant.AddFails` says exactly
  when adding a transaction fails).
* An account that is dropped and created again has lost the notes that were consumed in flight, and
  committing a transaction that consumed one panics (`NtxRuns.ReturnedAccountPanics`;
  `NtxInvariant.CommitIsExact` says exactly when committing does, and `NtxRuns.CommitsSucceed` that
  it does not as long as no account returns like that).
* The faucet's difficulty shift drops the bits that leave the machine word: more cached challenges
  never make the next one easier if and only if the shift of the largest number does not overflow
  (`FaucetPow.NeverEasierExactly`), and the first number that overflows brings the target back to
  its maximum (`FaucetPow.TargetWraps`).
* A cleanup while the clock is still below the lifetime subtracts past zero. Where that wraps, the
  cleanup forgets only what has expired exactly if nothing is cached up to now
  (`FaucetPow.CleanupIsExact`). A run with such cleanups can accept a challenge twice exactly if
  some challenge is earned while the clock is below the lifetime (`FaucetPow.ReplayExactly`), as any
  well-formed one with a zero timestamp does at time zero (`FaucetPow.ReplayHappens`).
* `Challenge::decode` unwraps the account id before it looks at the signature
  (`FaucetChallenges.DecodePanics`, `FaucetChallenges.MalformedAccountPanics`).

## Hypotheses

* Batch ids are injective in the batch's contents. A transaction that passes verification is neither
  tracked nor committed under its id; it may have been reverted before.
* `MempoolRuns.Allowed` is the calling protocol of the mempool: a batch that was selected for a
  block is not rolled back, a known batch is not proven twice, one block is built at a time. The
  header of a committed block carries the next number.
* The store starts from a chain whose genesis block is sound (`StoreLedger.Genesis`), and a call is
  not dropped under the write lock before its task has failed (`Stores.Safe`).
* Over a run the faucet's clock does not go back, and a submission reads it and meets the cache in
  one step (`FaucetPow.Allowed`). `NoReplay`, `LimitedExactly` and `AcceptsExactly` are about runs
  whose cleanups come with the clock past the lifetime (`FaucetPow.Timely`). Signatures have 32
  bytes (`FaucetChallenges.Scheme.Valid`). Shifts are by less than the width of the word
  (`FaucetPow.Shifts`).
* `NtxRuns.Allowed` is what the builder expects of its events: a created account is not tracked, a
  created note is not in the index, a block comes with all tracked creators of the notes it
  consumes, in whatever order, and with a transaction all consumers of its notes are reverted.

## Model

| member | source | states |
|---|---|---|
| Dags.DescendantsAreReachable | crates/block-producer/src/mempool/graph/mod.rs:297-341 | the fixed point that a purge or a requeue removes is exactly what paths of dependents reach |
| Dags.RootExists | crates/block-producer/src/mempool/graph/mod.rs:343-386 | with nothing pending and something unprocessed, some node is ready: the queue cannot deadlock |
| Dags.ReadyUnlessBlocked | crates/block-producer/src/mempool/graph/mod.rs:343-386 | something is ready if and only if some unprocessed promoted node waits for no pending one, directly or through others |
| Dags.RevertedRoots | crates/block-producer/src/mempool/graph/mod.rs:185-236 | after a requeue only old roots and the given keys can be roots, so re-examining those is enough |
| Dags.RevertSkipsPending | crates/block-producer/src/mempool/graph/mod.rs:185-236 | leaving pending children out of the walk makes no difference to the processed nodes |
| DependencyGraphs.DependencyGraph.InsertPending | crates/block-producer/src/mempool/graph/mod.rs:129-153 | adds a pending node or reports a duplicate key or the missing parents; all redundant indices stay exact |
| DependencyGraphs.DependencyGraph.PromotePending | crates/block-producer/src/mempool/graph/mod.rs:162-173 | supplies a pending node's data and makes it a root exactly if its parents are processed |
| DependencyGraphs.DependencyGraph.ProcessRoot | crates/block-producer/src/mempool/graph/mod.rs:388-403 | marks a root and turns exactly its newly ready children into roots |
| DependencyGraphs.DependencyGraph.RevertSubgraphs | crates/block-producer/src/mempool/graph/mod.rs:185-236 | unmarks the nodes and all their processed descendants, with the root set exact afterwards |
| DependencyGraphs.DependencyGraph.PruneProcessed | crates/block-producer/src/mempool/graph/mod.rs:248-295 | forgets processed nodes whose parents go with them and returns their data in key order, and otherwise reports what is unknown, unprocessed or dangling |
| DependencyGraphs.DependencyGraph.PurgeSubgraphs | crates/block-producer/src/mempool/graph/mod.rs:305-341 | removes the nodes with all their descendants and returns exactly those |
| Transactions.EdgesWithoutDescendants | crates/block-producer/src/mempool/inflight_state/mod.rs:247-266 | taking out a set with all its descendants leaves every other transaction's dependencies as if the set had never arrived |
| Transactions.EdgesWithoutAncestors | crates/block-producer/src/mempool/inflight_state/mod.rs:279-297 | taking out a set with all its ancestors removes exactly the edges to it |
| Transactions.AccountChain | crates/block-producer/src/mempool/inflight_state/account_state.rs:26-39 | the transactions of one account form a chain of dependencies |
| Transactions.EdgesPointBack | crates/block-producer/src/mempool/inflight_state/mod.rs:215-239 | everything a transaction depends on was admitted before it |
| InflightCores.AddKeepsConsistent | crates/block-producer/src/mempool/inflight_state/mod.rs:107-118 | an admitted transaction keeps ids, nullifiers and output notes of all tracked transactions distinct |
| InflightCores.ResubmissionRejected | crates/block-producer/src/mempool/inflight_state/mod.rs:131-213 | a tracked transaction submitted again is rejected unless it has no notes and its account is in the state that it starts from |
| InflightCores.AcceptedExactly | crates/block-producer/src/mempool/inflight_state/mod.rs:131-213 | a transaction is accepted if and only if it expires more than the slack above the tip, its authentication reaches back into the tracked blocks, it starts from the state in which the last tracked transaction of its account left it (or from the store's, or from zero), none of its nullifiers is spent and none of its output notes created by a tracked transaction, and its unauthenticated notes are all created by one |
| InflightCores.RejectedExactly | crates/block-producer/src/mempool/inflight_state/mod.rs:131-213 | and otherwise it is told the first of these that fails, with the heights, states or exactly the notes concerned |
| InflightStates.InflightState.VerifyTransaction | crates/block-producer/src/mempool/inflight_state/mod.rs:131-213 | the checks made on the maps and stacks are those on the list of tracked transactions, error by error; what these amount to is `InflightCores.AcceptedExactly` and `RejectedExactly` |
| InflightStates.InflightState.AddTransaction | crates/block-producer/src/mempool/inflight_state/mod.rs:107-118 | appends a transaction that is accepted and returns exactly its uncommitted parents, or reports the first failing check and changes nothing |
| InflightStates.InflightState.PushState | crates/block-producer/src/mempool/inflight_state/account_state.rs:26-39 | pushes the account state and returns the account's previous transaction unless that is committed |
| InflightStates.InflightState.RevertTransactions | crates/block-producer/src/mempool/inflight_state/mod.rs:247-266 | undoing a descendant-closed set one by one, in id order, leaves the state of the remaining list; no `expect` fires |
| InflightStates.InflightState.CommitBlock | crates/block-producer/src/mempool/inflight_state/mod.rs:279-297 | moves an ancestor-closed set into a new retained block, pivot by pivot, and prunes the oldest block beyond the retention |
| InflightStates.InflightState.PruneBlock | crates/block-producer/src/mempool/inflight_state/mod.rs:303-330 | drops the oldest retained block and nothing else from stacks, nullifiers and notes |
| TransactionGraphs.SelectionIsOrdered | crates/block-producer/src/mempool/transaction_graph.rs:78-106 | a selected batch lists distinct ready transactions, each after its unselected parents |
| TransactionGraphs.SelectionTakesLeast | crates/block-producer/src/mempool/transaction_graph.rs:78-106 | each selected transaction is the least one that is ready after those before it |
| TransactionGraphs.SelectionParents | crates/block-producer/src/mempool/transaction_graph.rs:78-106 | the parents returned are the union of the members' direct parents |
| TransactionGraphs.SelectionFillsBudget | crates/block-producer/src/mempool/mod.rs:83-113 | the totals of transactions, accounts, input notes and output notes stay within the budget, and selection stops only with no root left or a first root that does not fit |
| TransactionGraphs.SelectionIsComplete | crates/block-producer/src/mempool/transaction_graph.rs:78-106 | a budget with room for all unprocessed transactions leaves nothing unprocessed but what waits for a pending one, directly or through others |
| TransactionGraphs.TransactionGraph.Select | crates/block-producer/src/mempool/transaction_graph.rs:78-106 | the loop computes that selection and terminates |
| TransactionGraphs.TransactionGraph.Requeue | crates/block-producer/src/mempool/transaction_graph.rs:113-118 | requeues the transactions with their processed descendants |
| TransactionGraphs.TransactionGraph.Commit | crates/block-producer/src/mempool/transaction_graph.rs:125-133 | forgets committed transactions |
| TransactionGraphs.TransactionGraph.Remove | crates/block-producer/src/mempool/transaction_graph.rs:142-149 | removes transactions with all their descendants and returns those |
| Expirations.TransactionExpirations.Insert | crates/block-producer/src/mempool/transaction_expiration.rs:19-22 | records the height, and keeps the two maps inverse if and only if the transaction was not tracked under another height |
| Expirations.TransactionExpirations.Get | crates/block-producer/src/mempool/transaction_expiration.rs:25-27 | returns exactly the transactions tracked under the height |
| Expirations.TransactionExpirations.Remove | crates/block-producer/src/mempool/transaction_expiration.rs:32-47 | forgets the transactions in both maps and leaves no empty height |
| BatchGraphs.BlockIsOrdered | crates/block-producer/src/mempool/batch_graph.rs:247-271 | a block holds distinct proven batches, each after its unselected parents |
| BatchGraphs.BlockTakesLeast | crates/block-producer/src/mempool/batch_graph.rs:247-271 | each selected batch is the least proven one that is ready after those before it |
| BatchGraphs.BlockFillsBudget | crates/block-producer/src/mempool/mod.rs:115-131 | a block stays within its budget and stops only with no ready batch left or the budget spent |
| BatchGraphs.ConcatLists | crates/block-producer/src/mempool/batch_graph.rs:212-230 | concatenating batches lists each of their transactions once |
| BatchGraphs.BatchGraph.Insert | crates/block-producer/src/mempool/batch_graph.rs:101-140 | inserts a pending batch under the batches of the outside parents, or reports a duplicate or unknown transaction |
| BatchGraphs.BatchGraph.RemoveBatches | crates/block-producer/src/mempool/batch_graph.rs:151-172 | removes batches with their descendants and returns their transactions |
| BatchGraphs.BatchGraph.RemoveBatchesWithTransactions | crates/block-producer/src/mempool/batch_graph.rs:184-192 | removes exactly the batches of the given transactions, with descendants |
| BatchGraphs.BatchGraph.PruneCommitted | crates/block-producer/src/mempool/batch_graph.rs:212-230 | forgets the batches of a committed block and returns their transactions |
| BatchGraphs.BatchGraph.SubmitProof | crates/block-producer/src/mempool/batch_graph.rs:238-240 | promotes a pending batch |
| BatchGraphs.BatchGraph.Select | crates/block-producer/src/mempool/batch_graph.rs:247-271 | the loop computes the block selection |
| Quotients.QuotientInsert | crates/block-producer/src/mempool/batch_graph.rs:101-140 | a new batch whose parents are the batches of its transactions' outside parents extends the quotient |
| Quotients.QuotientRemove | crates/block-producer/src/mempool/batch_graph.rs:151-172 | removing a descendant-closed set of batches keeps the batch graph a quotient |
| Quotients.QuotientPrune | crates/block-producer/src/mempool/batch_graph.rs:212-230 | pruning an ancestor-closed set of batches and of their transactions keeps it one |
| Quotients.DependentsAreInBatches | crates/block-producer/src/mempool/mod.rs:292-313 | no batched transaction outside a batch and its descendants depends on one inside |
| Subscriptions.InOrderPush | crates/block-producer/src/mempool/subscription.rs:172-183 | although keys are reused after removals, iteration by key stays insertion order |
| Subscriptions.InOrderRemove | crates/block-producer/src/mempool/subscription.rs:190-193 | removal leaves the survivors in insertion order |
| Subscriptions.InflightTransactions.Insert | crates/block-producer/src/mempool/subscription.rs:172-183 | appends an event; both maps stay inverse |
| Subscriptions.InflightTransactions.Remove | crates/block-producer/src/mempool/subscription.rs:190-193 | drops exactly the transaction's event; both maps stay inverse |
| Subscriptions.SubscribeSyncs | crates/block-producer/src/mempool/subscription.rs:57-81 | the replay alone already folds to the uncommitted transactions |
| Subscriptions.SubscribeLeavesRoom | crates/block-producer/src/mempool/subscription.rs:57-81 | whoever is not at the tip is told the tip; after the replay there is room for as many events again, and for 1024 in all, and no more than one of these asks for |
| Subscriptions.PublishKeepsSync | crates/block-producer/src/mempool/subscription.rs:124-134 | every published event keeps the folded stream equal to the tracked transactions, or ends the subscription |
| Subscriptions.SubscriptionProvider.Subscribe | crates/block-producer/src/mempool/subscription.rs:57-81 | replays all tracked transactions, never overflowing the channel, or reports the actual tip |
| Subscriptions.SubscriptionProvider.SendEvent | crates/block-producer/src/mempool/subscription.rs:124-134 | delivers the event, or cancels the subscription when the channel is full or closed |
| Subscriptions.SubscriptionProvider.CommitBlock | crates/block-producer/src/mempool/subscription.rs:106-111 | drops the committed transactions, takes over the tip and sends the event |
| Subscriptions.SubscriptionProvider.TxsReverted | crates/block-producer/src/mempool/subscription.rs:113-116 | drops the reverted transactions and sends the event |
| MempoolSteps.AddOutcome | crates/block-producer/src/mempool/mod.rs:253-268 | adding never panics: a rejected transaction changes nothing, an accepted one, as `InflightCores.AcceptedExactly` says which, is appended everywhere and the invariant stays |
| MempoolSteps.AddPanics | crates/block-producer/src/mempool/mod.rs:253-268 | adding panics if and only if the transaction passes verification under the id of an uncommitted one |
| MempoolSteps.SelectBatchIsExact | crates/block-producer/src/mempool/mod.rs:275-288 | selecting never panics; the batch is in execution order and becomes a pending batch under the batches of its parents |
| MempoolSteps.BatchIdIsExact | crates/block-producer/src/mempool/mod.rs:275-288 | the batch gets the id of the list of its transactions with their accounts |
| MempoolSteps.SelectBatchKeepsInv | crates/block-producer/src/mempool/mod.rs:275-288 | the batch graph stays the quotient of the processed transactions, and every batch id that of the batch's transactions with their accounts |
| MempoolSteps.RollbackBatchIsExact | crates/block-producer/src/mempool/mod.rs:292-313 | exactly the failed batch and its descendants are dissolved and exactly their transactions requeued; nodes and edges of the transaction graph stay |
| MempoolSteps.RollbackBatchKeepsInv | crates/block-producer/src/mempool/mod.rs:292-313 | rolling back any batch that is not in the block keeps the invariant |
| MempoolSteps.CommitBatchPanics | crates/block-producer/src/mempool/mod.rs:317-325 | a proof panics if and only if the batch is known and was proven before |
| MempoolSteps.SelectBlockIsExact | crates/block-producer/src/mempool/mod.rs:337-356 | the block is an ordered list of proven batches for the next height |
| MempoolSteps.PruneBlockIsExact | crates/block-producer/src/mempool/mod.rs:364-396 | pruning a committed block never leaves a dangling parent or panics: the processed batches are exactly the block |
| MempoolSteps.ExpiryIsComplete | crates/block-producer/src/mempool/mod.rs:429-436 | looking up the exact height finds everything that expires at or below the tip |
| MempoolSteps.CommitBlockKeepsInv | crates/block-producer/src/mempool/mod.rs:364-396 | committing never panics, and nothing left in the mempool expires at or below the new tip |
| MempoolSteps.RollbackBlockKeepsInv | crates/block-producer/src/mempool/mod.rs:402-424 | rolling back a block never panics and keeps the invariant |
| MempoolRevert.RevertIsExact | crates/block-producer/src/mempool/mod.rs:451-479 | after a revert the graph is the old one minus the set and its descendants, the surviving batches are those that neither hold nor descend from one that held a removed transaction, and the rest of the dropped batches is queued again |
| MempoolRevert.RevertKeepsAgreement | crates/block-producer/src/mempool/mod.rs:451-479 | a revert of known transactions never panics and all components agree afterwards |
| MempoolProperties.AddThenRevert | crates/block-producer/src/mempool/mod.rs:451-479 | adding transactions and reverting them gives back the original mempool |
| MempoolProperties.SelectThenRollback | crates/block-producer/src/mempool/mod.rs:292-313 | a batch that fails right after selection leaves no trace |
| MempoolProperties.StaleProofPanics | crates/block-producer/src/mempool/mod.rs:292-325 | a batch that is selected, rolled back and selected again has its old id, and the second of two proofs for it panics |
| MempoolProperties.SecondProofPanics | crates/block-producer/src/mempool/mod.rs:317-325 | a pending batch takes one proof and panics at a second one |
| MempoolProperties.SecondCopyPanics | crates/block-producer/src/mempool/mod.rs:253-268 | an accepted transaction that is submitted again at once panics if and only if it has no notes of its own and leaves its account in the state it starts from |
| MempoolProperties.SecondCopyFromEmpty | crates/block-producer/src/mempool/mod.rs:253-268 | such a transaction, added twice to a new mempool, panics |
| MempoolProperties.ReplayIsCausal | crates/block-producer/src/mempool/subscription.rs:172-198 | in the replay of the tracked events every surviving parent has a smaller key than its child, and so comes first |
| MempoolProperties.RollbackThenCommit | crates/block-producer/src/mempool/mod.rs:292-313 | after rolling back a known batch the block can be committed if and only if the batch is not in it |
| MempoolProperties.Determined | crates/block-producer/src/mempool/mod.rs:177-199 | the list of uncommitted transactions and the processed set determine graph, expiry index and event log |
| MempoolRuns.StepKeepsWorld | crates/block-producer/src/mempool/mod.rs:253-479 | every allowed step succeeds and keeps the invariant together with the run's history |
| MempoolRuns.NoPanic | crates/block-producer/src/mempool/mod.rs:253-479 | no `expect` or `assert!` fires in any run that obeys the calling protocol |
| MempoolRuns.CommitOrder | crates/block-producer/src/mempool/batch_graph.rs:247-271 | over every run, with failures in between, the chain lists each committed transaction once and after everything it depended on when it was admitted |
| MempoolRuns.NothingIsLost | crates/block-producer/src/mempool/mod.rs:253-479 | every admitted transaction is exactly one of uncommitted, committed, reverted |
| MempoolRuns.NothingExpired | crates/block-producer/src/mempool/mod.rs:364-436 | nothing is committed above its expiration height and nothing in the mempool expires at or below the tip |
| MempoolRuns.SubscribersLoseNothing | crates/block-producer/src/mempool/subscription.rs:57-134 | as long as a subscription lives, folding its events gives id, nullifiers and details of the uncommitted transactions in arrival order, whenever it began |
| MempoolOutcomes.RevertLeaves | crates/block-producer/src/mempool/mod.rs:451-479 | exactly the transactions go that are reverted or depend on one that is; exactly the batches go that hold one of them or depend on such a batch, and what is left of them waits again |
| MempoolOutcomes.RollbackBatchLeaves | crates/block-producer/src/mempool/mod.rs:292-313 | exactly the failed batch and the batches that depend on it go, their transactions wait again, and nothing else changes |
| MempoolOutcomes.RollbackBlockLeaves | crates/block-producer/src/mempool/mod.rs:402-424 | a failed block takes out its transactions with all that depend on them, and their batches with all that depend on those |
| MempoolChain.DependsExactly | crates/block-producer/src/mempool/inflight_state/mod.rs:215-239 | a transaction depends exactly on the one that was the last of its account before it and on those before it that create its unauthenticated notes |
| MempoolChain.AccountsContinue | crates/block-producer/src/mempool/inflight_state/mod.rs:159-173 | over every run each tracked transaction starts from the state in which the one before it left the account |
| MempoolChain.NotesComeFirst | crates/block-producer/src/mempool/inflight_state/mod.rs:175-213 | over every run an unauthenticated note that a committed transaction consumed was created by one before it in the chain |
| MempoolChain.NewestAreTracked | crates/block-producer/src/mempool/inflight_state/mod.rs:279-330 | over every run the tracked blocks are the newest ones, as many as are to be retained or all there are, and hold exactly what was committed in them |
| MempoolChain.CommitRetains | crates/block-producer/src/mempool/inflight_state/mod.rs:279-330 | a commit appends the block and drops the oldest one exactly if there are more than are to be retained |
| MempoolChain.CommitTakesOut | crates/block-producer/src/mempool/mod.rs:364-436 | a commit takes out the block's transactions, those of the rest that expire with it and what depends on those, and nothing else |
| MempoolEvents.BlocksAreReported | crates/block-producer/src/mempool/subscription.rs:106-111 | over every run a live subscription was told of the newest blocks up to the tip, without a gap, and of exactly the transactions of each |
| Mempools.Mempool.constructor | crates/block-producer/src/mempool/mod.rs:221-242 | a new mempool is empty and valid |
| Mempools.Mempool.AddTransaction | crates/block-producer/src/mempool/mod.rs:253-268 | the method works all five components exactly as the modelled step does, and no lookup of theirs fails; what is rejected (`InflightCores.AcceptedExactly` says when) changes nothing |
| Mempools.Mempool.SelectBatch | crates/block-producer/src/mempool/mod.rs:275-288 | the loop's selection, the new batch and its parents reach both graphs as the modelled step says |
| Mempools.Mempool.RollbackBatch | crates/block-producer/src/mempool/mod.rs:292-313 | dissolves a batch outside the block with its descendants in the batch graph and requeues exactly their transactions in the transaction graph |
| Mempools.Mempool.CommitBatch | crates/block-producer/src/mempool/mod.rs:317-325 | makes a known unproven batch ready for blocks and ignores an unknown one |
| Mempools.Mempool.SelectBlock | crates/block-producer/src/mempool/mod.rs:337-356 | marks the selected batches, records them as the block in progress and returns them for the next height |
| Mempools.Mempool.CommitBlock | crates/block-producer/src/mempool/mod.rs:364-396 | prunes the block from every component, moves the tip and reverts what has expired, with every `expect` discharged |
| Mempools.Mempool.RollbackBlock | crates/block-producer/src/mempool/mod.rs:402-424 | reverts the transactions of the block in progress with all their descendants |
| Mempools.Mempool.RevertTransactions | crates/block-producer/src/mempool/mod.rs:451-479 | removes uncommitted transactions with their descendants from all five components and requeues the rest of the dropped batches |
| Mempools.Mempool.Subscribe | crates/block-producer/src/mempool/mod.rs:490-495 | subscribes at the tip, or reports the actual one and changes nothing |
| StoreLedger.ValidationIsExact | crates/store/src/state.rs:148-301 | the checks of `apply_block` pass and the write succeeds for exactly the blocks that extend the chain, which `StoreTables.ExtendsExactly` tells without the trees |
| StoreLedger.LedgerSafety | crates/store/src/state.rs:163-262 | accepted blocks are numbered without gaps, point at their predecessors, commit to the chain before and the trees after them, and spend no nullifier twice |
| StoreLedger.MutationsFollowTables | crates/store/src/state.rs:340-358 | applying the computed mutations gives what a reload of the written tables would |
| StoreLedger.UpsertIsMerge | crates/store/src/db/sql/mod.rs:468-548 | replacing account rows one by one is merging the tree's mutations |
| StoreLedger.NullifierTable | crates/store/src/db/sql/mod.rs:711-737 | the nullifier table holds exactly the nullifiers of the blocks, each once; under which number is `StoreTables.TableRows` |
| StoreLedger.TipDeterminesMemory | crates/store/src/state.rs:100-120 | two stores whose latest headers have the same commitment have the same headers and load the same trees |
| StoreLedger.SealedGenesis | crates/store/src/db/sql/mod.rs:1400-1417 | a header sealed over its own block's trees makes a genesis block, from which a run can start |
| StoreLedger.SealedExtends | crates/store/src/state.rs:148-301 | a block sealed over unspent nullifiers, accounts with free prefixes and full notes is one that the store accepts |
| StoreTables.TableRows | crates/store/src/db/sql/mod.rs:468-737 | over every chain each nullifier is recorded under the block that spent it, each account has the commitment of the last update that names it, by block and then by position, each note the last block that creates it, and there are no other rows |
| StoreTables.ChecksAreExact | crates/store/src/state.rs:201-301 | the checks against memory report exactly the first thing that is wrong with a block over those accepted before: spent nullifiers, the chain, the nullifiers, an account prefix that is taken, the accounts, the notes, a partial note |
| StoreTables.ExtendsExactly | crates/store/src/state.rs:148-301 | a block is accepted if and only if it commits to its transactions, follows the last block, nothing is wrong with it and it lists no nullifier twice |
| StoreTables.PrefixesStayDistinct | crates/store/src/state.rs:240-255 | no two accounts of a chain share a prefix if no two of its genesis block do |
| StoreProtocol.LoadedInv | crates/store/src/state.rs:100-120 | loading from a chained database starts a run that satisfies the invariant |
| StoreProtocol.ReturnInv | crates/store/src/state.rs:148-365 | a call that returns an error without a commit changes neither database nor memory |
| StoreProtocol.LockedInv | crates/store/src/state.rs:315-337 | under the write lock the roots are still those the mutations were computed against, and the database task still waits |
| StoreProtocol.CommitExtends | crates/store/src/db/mod.rs:491-520 | only the database task of the call that holds the write lock commits, and what it commits extends the chain |
| StoreProtocol.FinishedInv | crates/store/src/state.rs:339-359 | neither `apply_mutations` fails, and memory catches up with the database |
| StoreRuns.StepInv | crates/store/src/state.rs:148-365 | every interleaved step keeps the invariant and none panics |
| StoreRuns.MemoryIsReload | crates/store/src/state.rs:148-365 | memory is always what a reload of the accepted blocks builds; it differs from a reload of the database exactly between commit and update, and never while the write lock is free or anyone holds a read guard |
| StoreRuns.AcceptedAreCommitted | crates/store/src/state.rs:148-365 | the database holds the genesis block and the blocks reported as applied, in order, and at most the one being applied, every nullifier, account and note in its row; a failed call leaves no trace |
| StoreRuns.SubmitTells | crates/store/src/state.rs:148-161 | a block is turned away while another call is at work, or if it does not commit to its transactions |
| StoreRuns.HeaderTells | crates/store/src/state.rs:163-186 | then exactly if it does not carry the next number, or does not point at the last accepted block |
| StoreRuns.ValidationTells | crates/store/src/state.rs:201-301 | and then exactly if something is wrong with it over the blocks accepted so far, of which it is told the first |
| StoreRuns.DroppedGrant | crates/store/src/state.rs:334-345 | dropping a call that has permitted the commit leaves the database ahead of memory with nothing locked |
| StoreRuns.DropIsSafe | crates/store/src/state.rs:148-365 | dropping a call keeps the invariant if and only if it does not hold the write lock or its task has failed |
| StoreRuns.HandshakeNeverStuck | crates/store/src/state.rs:283-359 | while a call is in progress it, a database task or a reader can move, whatever earlier calls left behind, except when the call is queued behind guards whose holders all wait for a second one |
| StoreRuns.ExtensionIsApplied | crates/store/src/state.rs:148-365 | every block that extends the chain can be applied: some run ends with it in the database, in memory and reported |
| StoreProgress.WorkEnds | crates/store/src/state.rs:148-365 | a run without arrivals and drops is no longer than the work left at its start, in whatever order the steps come |
| StoreProgress.CallEnds | crates/store/src/state.rs:148-365 | from every state the steps of those at work bring the call to an answer, or behind guards whose holders wait for it, which cannot be if nobody waits for a second guard |
| StoreGuards.StallsExactly | crates/store/src/state.rs:430-454 | some run leads from a request's first guard to a state where it waits behind a queued writer if and only if the request names a block number |
| StoreGuards.StallsFromLoad | crates/store/src/state.rs:430-454 | such a run exists from every state right after a load |
| StoreGuards.SecondGuardWaits | crates/store/src/state.rs:435-438 | a request that holds one guard is refused the second one if and only if a writer is queued |
| StoreGuards.StallIsForever | crates/store/src/state.rs:430-454 | in every continuation both still wait and no reader gets in, unless the call or the request is dropped |
| StoreGuards.GuardsFreeze | crates/store/src/state.rs:430-454 | while a guard is held no step commits or applies a block |
| StoreGuards.CurrentDataIsDue | crates/store/src/state.rs:430-454 | over its whole life a request is told that it is up to date exactly if it named the latest block, and else given the latest header and the peaks below it; no lookup fails, and the peaks are never invalid |
| StoreGuards.DueIsConsistent | crates/store/src/state.rs:448-453 | the header handed out commits to the peaks handed out with it |
| StoreReads.RunGrows | crates/store/src/state.rs:148-365 | over a run the committed blocks only grow |
| StoreReads.CaptureIsExact | crates/store/src/state.rs:728-790 | the part under the lock never panics and rejects exactly references beyond the tip |
| StoreReads.BlockInputs | crates/store/src/state.rs:654-790 | whatever happens between its three reads, a request panics nowhere and is rejected exactly for the caller's own references beyond the tip; otherwise it gets the latest header and the chain and trees that header commits to, and tracked with their headers are exactly the blocks that were named and, for each note that was committed, the last one that creates it |
| StoreReads.BatchInputs | crates/store/src/state.rs:474-573 | the same for batch inputs, which need a reference block |
| NtxAccounts.RunningPop | crates/ntx-builder/src/state/account.rs:62-64 | committing the oldest state leaves the others the running application of the remaining updates |
| NtxAccounts.AccountState.AddDelta | crates/ntx-builder/src/state/account.rs:48-55 | appends the changed state; the states stay the surviving updates applied to the committed account |
| NtxAccounts.AccountState.CommitDelta | crates/ntx-builder/src/state/account.rs:62-64 | commits from the front |
| NtxAccounts.AccountState.RevertDelta | crates/ntx-builder/src/state/account.rs:77-80 | reverts from the back and reports exactly when no state is left |
| NtxAccounts.AccountState.AddNote | crates/ntx-builder/src/state/account.rs:83-85 | adds a waiting note; no note is both waiting and consumed, after this or any other method |
| NtxAccounts.AccountState.RevertNote | crates/ntx-builder/src/state/account.rs:88-95 | removes the note from wherever it is |
| NtxAccounts.AccountState.AddNullifier | crates/ntx-builder/src/state/account.rs:104-111 | moves an available note to the consumed ones |
| NtxAccounts.AccountState.CommitNullifier | crates/ntx-builder/src/state/account.rs:118-122 | forgets a consumed note |
| NtxAccounts.AccountState.RevertNullifier | crates/ntx-builder/src/state/account.rs:125-133 | makes a consumed note available again unless it is gone |
| NtxUndo.AppliedNotes | crates/ntx-builder/src/state/account.rs:83-111 | after any applicable list of effects a note is waiting or consumed exactly as its creator and consumer have it |
| NtxUndo.UndoInAnyOrder | crates/ntx-builder/src/state/account.rs:48-146 | reverting any list of effects in any permutation gives back the original account |
| NtxSelection.SearchIsExact | crates/ntx-builder/src/state/mod.rs:109-154 | one call visits each account at most once, prunes exactly the free empty ones it passes, keeps the order of the others, and panics exactly when it first comes to an untracked one |
| NtxSelection.SearchFails | crates/ntx-builder/src/state/mod.rs:109-154 | whatever is in the queue, even twice, a call panics if and only if it comes to the place of an account that is gone, or that it has just pruned, before it comes to a selectable one |
| NtxSelection.SearchSucceeds | crates/ntx-builder/src/state/mod.rs:109-154 | with every tracked account queued once, a call never panics, returns nothing if and only if nothing is selectable, and keeps the queue so |
| NtxSelection.SearchAdvances | crates/ntx-builder/src/state/mod.rs:109-154 | a call that selects another account brings a selectable one closer to the front |
| NtxTrace.SearchDrops | crates/ntx-builder/src/state/mod.rs:109-154 | a call forgets only free accounts without a state in flight and without notes, waiting or consumed, and chooses only a free one with a waiting note |
| NtxTrace.SearchLeaves | crates/ntx-builder/src/state/mod.rs:109-154 | a call that chooses nobody leaves no free account in the queue that it should have forgotten or chosen |
| NtxSelection.FirstNotesAreLeast | crates/ntx-builder/src/state/mod.rs:142-150 | the candidate's notes are the first by nullifier, in order, up to the limit, and some if there are any |
| NtxStates.State.SelectCandidate | crates/ntx-builder/src/state/mod.rs:109-154 | the rotating loop computes that search and returns the account's latest state and first notes |
| NtxStates.State.CandidateFailed | crates/ntx-builder/src/state/mod.rs:159-162 | the account is no longer in progress, and nothing else changes |
| NtxStates.State.AddTransaction | crates/ntx-builder/src/state/mod.rs:205-273 | the effects in order: account, notes, nullifiers, record; an unknown account is reported and changes nothing; called where no lookup fails, which `NtxInvariant.AddFails` characterises; `NtxEffects.AddedExactly` and `NtxTrace.AddFrees` tell what it comes to |
| NtxStates.State.CommitTransaction | crates/ntx-builder/src/state/mod.rs:276-294 | the effects of a commit, called where no lookup fails, which `NtxInvariant.CommitIsExact` characterises |
| NtxStates.State.RevertTransaction | crates/ntx-builder/src/state/mod.rs:297-327 | the effects of a revert, called where no lookup fails, which `NtxRevert.RevertPanicsIffCreatorFirst` characterises |
| NtxRevert.RevertPanicsIffCreatorFirst | crates/ntx-builder/src/state/mod.rs:185-189 | reverting transactions in a given order panics if and only if a tracked one comes after the creator of a note it consumed |
| NtxRevert.CreatorFirstPanics | crates/ntx-builder/src/state/mod.rs:319-326 | from the empty builder two added transactions, creator and consumer of a note, panic when reverted in one order and not in the other |
| NtxRevert.RevertDeltaBalanced | crates/ntx-builder/src/state/mod.rs:303-308 | each account keeps one state per tracked transaction that changed it, in whatever order they are reverted, so no delta is missing |
| NtxRevert.AddCovers | crates/ntx-builder/src/state/mod.rs:205-273 | adding keeps every tracked account in the queue once if and only if it does not create one that is tracked |
| NtxRevert.CommitCovers | crates/ntx-builder/src/state/mod.rs:276-294 | so does committing |
| NtxRevert.RevertCovers | crates/ntx-builder/src/state/mod.rs:297-327 | reverting does so if and only if it does not undo an account's creation |
| NtxRevert.RevertedCreationPanics | crates/ntx-builder/src/state/mod.rs:109-154 | after the revert of an account's creation the next search panics if and only if the account is not busy and nothing selectable comes before its old place |
| NtxInvariant.AddKeeps | crates/ntx-builder/src/state/mod.rs:205-273 | adding keeps the invariant: one state in flight per tracked transaction that changed the account, obtained by the surviving updates; notes in one map, indexed, created once and consumed once |
| NtxInvariant.AddFails | crates/ntx-builder/src/state/mod.rs:205-273 | adding reports an unknown account if and only if the changed account is neither tracked nor known to the store, and else panics if and only if the delta does not apply, a consumed note does not wait for its account, or a note is consumed twice |
| NtxInvariant.CommitIsExact | crates/ntx-builder/src/state/mod.rs:276-294 | anywhere in a block, committing a transaction panics if and only if a tracked account does not hold a note that it consumed, and else forgets exactly the transaction and these notes |
| NtxInvariant.RevertIsExact | crates/ntx-builder/src/state/mod.rs:297-327 | reverting keeps the invariant if and only if the consumers of its notes were reverted before |
| NtxInvariant.SearchKeeps | crates/ntx-builder/src/state/mod.rs:133-140 | pruning an empty account loses no tracked transaction |
| NtxEffects.AddedExactly | crates/ntx-builder/src/state/mod.rs:205-273 | after a transaction is added the account it changed has one more state, which is what the delta makes of its latest one, or of the store's; every other is as before or as in the store; exactly the new notes of known accounts and the old ones wait, but for those consumed, which are held; it is recorded exactly if it did something |
| NtxEffects.CommittedExactly | crates/ntx-builder/src/state/mod.rs:276-294 | a commit makes the oldest state of the account the committed one, forgets the consumed notes, and does nothing else to states and notes |
| NtxEffects.RevertedExactly | crates/ntx-builder/src/state/mod.rs:297-327 | a revert takes the newest state back, and the account with it if nothing is left, forgets the created notes, and lets those wait that were consumed |
| NtxRuns.BlockIsExact | crates/ntx-builder/src/state/mod.rs:180-184 | committing a block in any order panics if and only if a tracked account does not hold a note that it consumed, and keeps the invariant if and only if it contains every tracked creator of the notes it consumed |
| NtxRuns.HandleKeeps | crates/ntx-builder/src/state/mod.rs:166-193 | every event keeps the invariant, and keeps consumed notes held by their accounts if and only if no account returns that was dropped while a note of its was consumed |
| NtxRuns.RunInv | crates/ntx-builder/src/state/mod.rs:109-327 | the invariant holds over every run of added, committed and reverted transactions, selections and failures |
| NtxRuns.RunFails | crates/ntx-builder/src/state/mod.rs:109-327 | after every run, the condition on the state under which the next event fails, for each kind of event in both directions |
| NtxRuns.CommitsSucceed | crates/ntx-builder/src/state/mod.rs:276-294 | over every run in which no account returns like that, committing never fails |
| NtxRuns.NobodyStarves | crates/ntx-builder/src/state/mod.rs:109-193 | over every run of events, an account at position p that is selectable whenever a selection is made is selected by one of the next p + 1 selections |
| NtxTrace.AddFrees | crates/ntx-builder/src/state/mod.rs:205-241 | a new transaction frees the account it changed, and no other |
| NtxTrace.BusyExactly | crates/ntx-builder/src/state/mod.rs:109-241 | over every run of events an account is busy if and only if a selection chose it and since then no failure was reported for it and no new transaction changed it |
| NtxRuns.EarlyNotePanics | crates/ntx-builder/src/state/mod.rs:242-266 | a run after which consuming a note panics that came before its account did |
| NtxRuns.ReturnedAccountPanics | crates/ntx-builder/src/state/mod.rs:276-294 | a run after which committing a block panics because an account was dropped and came back |
| FaucetChallenges.RoundTrip | bin/faucet/src/server/challenge.rs:88-120 | encodings have a fixed length, and decoding one under the secret it was signed with gives the challenge back |
| FaucetChallenges.EncodeIsInjective | bin/faucet/src/server/challenge.rs:112-120 | different challenges have different encodings |
| FaucetChallenges.EncodingAt | bin/faucet/src/server/challenge.rs:112-120 | where each byte stands in the encoding: target and timestamp from the low byte up, then account, key and signature |
| FaucetChallenges.DecodeIsExact | bin/faucet/src/server/challenge.rs:88-109 | a text decodes to a challenge if and only if it spells its encoding, in digits of either case, and the challenge is signed under the secret and names a well-formed account |
| FaucetChallenges.DecodePanics | bin/faucet/src/server/challenge.rs:88-96 | decoding rejects exactly malformed text as such, and panics exactly on well-formed text with a malformed account id |
| FaucetChallenges.MalformedAccountPanics | bin/faucet/src/server/challenge.rs:88-96 | for instance on the text of every challenge with such an account, however it is signed |
| FaucetCaches.ChallengeCache.InsertChallenge | bin/faucet/src/server/pow.rs:168-188 | adds the entry and reports whether it was new; every counter equals the number of entries and is not zero |
| FaucetCaches.ChallengeCache.HasChallengeForAccount | bin/faucet/src/server/pow.rs:191-193 | true exactly if some cached entry is the account's |
| FaucetCaches.ChallengeCache.NumChallengesForApiKey | bin/faucet/src/server/pow.rs:196-198 | the number of the key's cached entries |
| FaucetCaches.ChallengeCache.CleanupExpiredChallenges | bin/faucet/src/server/pow.rs:209-243 | keeps exactly the entries from the limit on, which is the wrapped difference of clock and lifetime; neither `expect` fires and the counters stay exact |
| FaucetCaches.SplitTally | bin/faucet/src/server/pow.rs:209-215 | splitting the entries at a timestamp splits the counts |
| FaucetCaches.TallyCounts | bin/faucet/src/server/pow.rs:196-198 | the count of a key is the number of its entries |
| FaucetPow.PoW.SubmitChallenge | bin/faucet/src/server/pow.rs:96-138 | the checks in order, which `FaucetPow.ChecksAreExact` tells without naming them; the challenge is cached exactly if it is accepted |
| FaucetPow.PoW.ChallengeTarget | bin/faucet/src/server/pow.rs:71-81 | the target for the number of the key's cached entries |
| FaucetPow.TargetIs | bin/faucet/src/server/pow.rs:71-81 | the target is the largest word divided by two to the baseline and by what the shift leaves in the word, or one, rounded down once |
| FaucetPow.TargetFalls | bin/faucet/src/server/pow.rs:71-81 | short of overflow more cached challenges never make the next one easier |
| FaucetPow.TargetWraps | bin/faucet/src/server/pow.rs:71-81 | for every growth rate the first number whose shift overflows is as easy as none, and strictly easier than one less |
| FaucetPow.NeverEasierExactly | bin/faucet/src/server/pow.rs:71-81 | up to a given number, more cached challenges never make the next one easier if and only if the shift of that number does not overflow |
| FaucetPow.CleanupIsExact | bin/faucet/src/server/pow.rs:209-215 | a cleanup forgets only expired entries if and only if the clock is past the lifetime or nothing is cached up to now |
| FaucetPow.ReplayExactly | bin/faucet/src/server/pow.rs:96-243 | with cleanups at any time, some run accepts a challenge twice if and only if some challenge is earned while the clock is below the lifetime |
| FaucetPow.ReplayHappens | bin/faucet/src/server/pow.rs:96-243 | such a run exists for every lifetime but zero and every challenge signed for time zero that meets its target |
| FaucetPow.NoReplay | bin/faucet/src/server/pow.rs:96-243 | over every run with timely cleanups no timestamp, account and key is accepted twice, and a second acceptance for an account comes more than a lifetime after the first challenge's timestamp |
| FaucetPow.LimitedExactly | bin/faucet/src/server/pow.rs:120-135 | over such runs a checked challenge is turned away exactly while an earlier acceptance of its account is not cleaned up, and then always as rate limited |
| FaucetPow.ChecksAreExact | bin/faucet/src/server/pow.rs:96-124 | a submission passes the checks if and only if its text spells a challenge that the faucet signed, which is fresh, for this account and key, and whose target the nonce meets; what spells a signed challenge but is stale, or fails otherwise, is told so |
| FaucetPow.AcceptedAreEarned | bin/faucet/src/server/pow.rs:96-138 | over every run, whenever the cleanups come, everything that was accepted was earned like that |
| FaucetPow.SubmitExactly | bin/faucet/src/server/pow.rs:96-138 | a submission is accepted if and only if it is earned and the cache admits its challenge |
| FaucetPow.AcceptsExactly | bin/faucet/src/server/pow.rs:96-138 | after every run with timely cleanups, if and only if it is earned and no earlier acceptance of its account is within the newest cleanup's bound |

## Left out

- InflightStates.InflightState.AddTransaction: a transaction that passes verification under an id that is tracked, for which the maps stop describing a list. A copy of a tracked transaction that passes has no notes (`InflightCores.ResubmissionRejected`).
- NtxStates.State.AddTransaction: failing store queries, which the caller treats as fatal, are left out.
- NtxStates.State.constructor: starts empty; `State::load` adds the notes it finds in the store without indexing their nullifiers, so that a loaded note stays available when it is consumed. Loading is not part of this model.
- NtxStates.State.SelectCandidate: holds the accounts as values, so that the in-place updates of one account are shown by the account class alone.
- Mempools.Mempool.Subscribe: the channel is a value of the provider; the receiver's side is the two methods Receive and Close of `Subscriptions.SubscriptionProvider`.
- FaucetCaches.ChallengeCache.CleanupExpiredChallenges: a clock below the lifetime wraps, as in a build without overflow checks; one with them panics there.
- FaucetPow.PoW.ChallengeTarget: shifts by 64 or more, which panic or mask the count depending on the build.
- Machine integers are unbounded, except in the faucet's shift, timestamps and encoding; heights and counters of the other components are not assumed to wrap.
- The mempool's mutex, telemetry, the intervals of the batch and block builders, and their injected failures.
- Merkle trees, the MMR, hashing, signatures and proofs are functions; a tree is a map and a partial chain a list of commitments.
- The SQL of the store beyond primary keys and replacement, block files, and the queries that read one source only.
- Hexadecimal parsing belongs to a library; both cases of a digit are taken to be accepted.
- The remote prover's proxy, the faucet's minting and web pages, gRPC, and command lines.
