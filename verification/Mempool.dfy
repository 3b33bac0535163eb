/** The mempool as the node runs it. Every method is proved to perform the corresponding step of
    `MempoolModel`, so that what holds over runs of the model holds of the object; each
    `expect` and `assert!` of the node appears as an assertion. */
module Mempools {
  import opened Prelude
  import opened Dags
  import opened DependencyGraphs
  import opened Transactions
  import opened InflightCores
  import opened InflightStates
  import opened TransactionGraphs
  import opened BatchGraphs
  import opened Expirations
  import opened Subscriptions
  import M = MempoolModel
  import S = MempoolSteps

  class Mempool {
    const state: InflightState
    const transactions: TransactionGraph
    const expirations: TransactionExpirations
    const batches: BatchGraph
    const subscription: SubscriptionProvider
    const batchBudget: BatchBudget
    const blockBudget: BlockBudget
    var chainTip: nat
    var blockInProgress: Option<set<nat>>

    ghost function Parts(): set<object> {
      {state, transactions.inner, expirations, batches, batches.inner, subscription,
       subscription.inflightTxs}
    }

    ghost function Config(): M.Config {
      M.Config(batchBudget, blockBudget, state.numRetained, state.slack, batches.idOf)
    }

    ghost function Model(): M.Pool
      reads this, Parts()
    {
      M.Pool(chainTip, state.core, transactions.inner.Model(), expirations.byTx,
             batches.Model(), blockInProgress, subscription.Model())
    }

    ghost predicate Sound()
      reads this, Parts()
    {
      var sound :=
        && state.Valid()
        && transactions.inner.Valid() && Keyed(transactions.inner.Model())
        && expirations.Valid()
        && batches.Valid()
        && subscription.Valid()
        && transactions.inner as object != batches.inner;
      sound
    }

    ghost predicate Valid()
      reads this, Parts()
    {
      var valid :=
        Sound() && state.chainTip == chainTip && M.Inv(Config(), Model());
      valid
    }

    constructor (chainTip: nat, batchBudget: BatchBudget, blockBudget: BlockBudget,
                 retention: nat, slack: nat, idOf: BatchIds)
      requires M.Injective(idOf)
      ensures Valid()
      ensures Model() == M.Empty(chainTip)
      ensures Config() == M.Config(batchBudget, blockBudget, retention, slack, idOf)
    {
      hide InflightState.Valid, BatchGraph.Valid, M.Inv;
      hide SubscriptionProvider.Valid, TransactionExpirations.Valid;
      this.chainTip, this.batchBudget, this.blockBudget := chainTip, batchBudget, blockBudget;
      blockInProgress := None;
      state := new InflightState(chainTip, retention, slack);
      transactions := new TransactionGraph();
      expirations := new TransactionExpirations();
      batches := new BatchGraph(idOf);
      subscription := new SubscriptionProvider(chainTip);
      new;
      M.EmptyInv(Config(), chainTip);
    }

    /** Adds a transaction, returning the current block height. */
    method AddTransaction(tx: Tx) returns (r: Result<nat, AddError>)
      requires Valid() && NewIfValid(state.core, chainTip, state.slack, tx)
      modifies this, Parts()
      ensures Valid()
      ensures M.AddTransaction(Config(), old(Model()), tx) == Some((Model(), r))
    {
      hide InflightState.Valid, DependencyGraph.Valid, BatchGraph.Valid, M.Inv;
      hide SubscriptionProvider.Valid, TransactionExpirations.Valid;
      ghost var p := Model();
      S.AddOutcome(Config(), p, tx);
      var added := state.AddTransaction(tx);
      if added.Err? {
        assert Model() == p;
        return Err(added.error);
      }
      ghost var q := S.WithTx(p, tx);
      assert Insert(p.txs, tx, added.value) == Ok(q.txs);
      Record(tx, added.value);
      assert Model() == q;
      r := Ok(chainTip);
    }

    /** Tells the subscriber, the expiry index and the graph about an admitted transaction. */
    method Record(tx: Tx, parents: set<nat>)
      requires subscription.Valid() && expirations.Valid()
      requires transactions.inner.Valid() && Keyed(transactions.inner.Model())
      requires tx.id !in EventIds(subscription.Model().log) && tx.id !in expirations.byTx
      requires Insert(transactions.inner.Model(), tx, parents).Ok?
      modifies subscription, subscription.inflightTxs, expirations, transactions.inner
      ensures subscription.Valid() && expirations.Valid()
      ensures transactions.inner.Valid() && Keyed(transactions.inner.Model())
      ensures subscription.Model() == old(subscription.Model()).Publish(M.EventOf(tx))
      ensures expirations.byTx == old(expirations.byTx)[tx.id := tx.expiresAt]
      ensures Ok(transactions.inner.Model()) ==
              Insert(old(transactions.inner.Model()), tx, parents)
    {
      subscription.TransactionAdded(M.EventOf(tx));
      expirations.Insert(tx.id, tx.expiresAt);
      var inserted := transactions.InsertTransaction(tx, parents);
      assert inserted.Pass?;  // "transaction should insert after passing inflight state"
    }

    /** Returns a set of transactions for the next batch, in a valid execution order, or `None`
        if no transactions are available. */
    method SelectBatch() returns (r: Option<(nat, seq<Tx>)>)
      requires Valid()
      modifies this, Parts()
      ensures Valid()
      ensures M.SelectNextBatch(Config(), old(Model())) == Some((Model(), r))
    {
      hide InflightState.Valid, DependencyGraph.Valid, BatchGraph.Valid, M.Inv;
      hide SubscriptionProvider.Valid, TransactionExpirations.Valid;
      S.SelectBatchKeepsInv(Config(), Model());
      ghost var p := Model();
      var batch, parents := transactions.Select(batchBudget);
      if batch == [] {
        return None;
      }
      var inserted := batches.Insert(M.ContentsOf(batch), parents);
      assert inserted.Ok?;  // "selected batch should insert"
      r := Some((inserted.value, batch));
    }

    /** Dissolves a batch that failed, with those that descend from it, and requeues what they held;
        nothing happens for an unknown batch. */
    method RollbackBatch(batch: nat)
      requires Valid() && batch !in batches.inner.processed
      modifies this, Parts()
      ensures Valid()
      ensures M.RollbackBatch(old(Model()), batch) == Some(Model())
    {
      hide InflightState.Valid, DependencyGraph.Valid, BatchGraph.Valid, M.Inv;
      hide SubscriptionProvider.Valid, TransactionExpirations.Valid;
      S.RollbackBatchKeepsInv(Config(), Model(), batch);
      if !batches.Contains(batch) {
        return;
      }
      var removed := batches.RemoveBatches({batch});
      assert removed.Ok?;  // "batch was not present"
      TxsOfRemoved(old(batches.batches), batches.batches.Keys);
      var txs := TxsOf(removed.value, removed.value.Keys);
      var requeued := transactions.Requeue(txs);
      assert requeued.Pass?;  // "transaction should requeue"
    }

    /** Takes the proof of a known batch; proofs of others are ignored. */
    method CommitBatch(batch: ProvenBatch)
      requires Valid() && batch.id !in batches.inner.vertices
      modifies this, Parts()
      ensures Valid()
      ensures M.CommitBatch(old(Model()), batch) == Some(Model())
    {
      hide InflightState.Valid, DependencyGraph.Valid, BatchGraph.Valid, M.Inv;
      hide SubscriptionProvider.Valid, TransactionExpirations.Valid;
      S.CommitBatchKeepsInv(Config(), Model(), batch);
      if !batches.Contains(batch.id) {
        return;
      }
      var submitted := batches.SubmitProof(batch);
      assert submitted.Pass?;  // "batch proof should submit"
    }

    /** Selects batches for the next block. */
    method SelectBlock() returns (number: nat, selected: seq<ProvenBatch>)
      requires Valid()
      requires blockInProgress.None?  // "cannot have two blocks inflight"
      modifies this, Parts()
      ensures Valid()
      ensures M.SelectNextBlock(Config(), old(Model())) == Some((Model(), number, selected))
    {
      hide InflightState.Valid, DependencyGraph.Valid, BatchGraph.Valid, M.Inv;
      hide SubscriptionProvider.Valid, TransactionExpirations.Valid;
      S.SelectBlockKeepsInv(Config(), Model());
      selected := batches.Select(blockBudget);
      blockInProgress := Some(BatchIdsOf(selected));
      number := chainTip + 1;
    }

    /** Takes transactions out with all that depend on them. The rest of every batch that lost a
        transaction is requeued. */
    method RevertTransactions(txs: set<nat>) returns (r: Result<set<nat>, GraphError>)
      requires Sound() && state.chainTip == chainTip && M.Agrees(Config(), Model())
      modifies Parts()
      ensures Sound() && state.chainTip == chainTip
      ensures if txs <= Ids(old(state.core.log))
              then r == Ok(Descendants(old(transactions.inner.parents), txs))
                   && M.Revert(old(Model()), txs) == Some(Model())
              else r.Err? && Model() == old(Model())
    {
      hide InflightState.Valid, DependencyGraph.Valid, BatchGraph.Valid, M.Agrees;
      hide SubscriptionProvider.Valid, TransactionExpirations.Valid;
      S.RevertDemands(Config(), Model(), txs);
      var removed := transactions.Remove(txs);
      if removed.Err? {
        return Err(removed.error);
      }
      var reverted := removed.value;
      var dropped := batches.RemoveBatchesWithTransactions(reverted);
      TxsOfRemoved(old(batches.batches), batches.batches.Keys);
      var toRequeue := TxsOf(dropped, dropped.Keys) - reverted;
      var requeued := transactions.Requeue(toRequeue);
      assert requeued.Pass?;  // "transactions from batches must be requeueable"

      Cleanup(reverted);
      r := Ok(reverted);
    }

    /** Forgets reverted transactions outside the two graphs. */
    method Cleanup(reverted: set<nat>)
      requires expirations.Valid() && state.Valid() && subscription.Valid()
      requires reverted <= Ids(state.core.log) && Closed(EdgesOf(state.core.log), reverted)
      requires reverted <= EventIds(subscription.Model().log)
      modifies expirations, state, subscription, subscription.inflightTxs
      ensures expirations.Valid() && state.Valid() && subscription.Valid()
      ensures state.chainTip == old(state.chainTip)
      ensures expirations.byTx == old(expirations.byTx) - reverted
      ensures state.core == old(state.core).Revert(reverted)
      ensures subscription.Model() ==
              old(subscription.Model()).Publish(TransactionsReverted(reverted))
    {
      hide InflightState.Valid, SubscriptionProvider.Valid, TransactionExpirations.Valid;
      expirations.Remove(reverted);
      state.RevertTransactions(reverted);
      subscription.TxsReverted(reverted);
    }

    /** Notifies the pool that the block in progress was committed, and reverts what expired. The
        header carries the next block number. */
    method CommitBlock(number: nat)
      requires Valid() && number == chainTip + 1
      requires blockInProgress.Some?  // "no block in progress to commit"
      modifies this, Parts()
      ensures Valid()
      ensures M.CommitBlock(Config(), old(Model()), number) == Some(Model())
    {
      hide InflightState.Valid, DependencyGraph.Valid, BatchGraph.Valid, M.Inv, M.Agrees;
      hide SubscriptionProvider.Valid, TransactionExpirations.Valid, M.PruneBlock, M.Revert;
      ghost var p := Model();
      S.CommitBlockKeepsInv(Config(), p);
      S.CommitBlockOutline(Config(), p);
      PruneBlock(number);
      RevertExpired();
    }

    /** Removes the block's batches and transactions from everything. */
    method PruneBlock(number: nat)
      requires Sound() && state.chainTip == chainTip && blockInProgress.Some?
      requires M.PruneBlock(Config(), Model(), number).Some?
      requires S.Committable(Model())
      modifies this, Parts()
      ensures Sound() && state.chainTip == chainTip
      ensures M.PruneBlock(Config(), old(Model()), number) == Some(Model())
    {
      hide InflightState.Valid, DependencyGraph.Valid, BatchGraph.Valid;
      hide SubscriptionProvider.Valid, TransactionExpirations.Valid;
      var ids := blockInProgress.value;
      blockInProgress := None;
      var pruned := batches.PruneCommitted(ids);
      assert pruned.Ok?;  // "batches failed to commit"
      var txs := pruned.value;
      var committed := transactions.Commit(txs);
      assert committed.Pass?;  // "transaction graph malformed"
      FinishCommit(number, txs);
    }

    /** Tells the expiry index, the in-flight state and the subscriber about a committed block. */
    method FinishCommit(number: nat, txs: seq<nat>)
      requires expirations.Valid() && state.Valid() && subscription.Valid()
      requires NoDup(txs) && Elems(txs) <= Ids(state.core.log)
      requires AncestorClosed(EdgesOf(state.core.log), Elems(txs))
      requires Elems(txs) <= EventIds(subscription.Model().log)
      modifies this`chainTip, expirations, state, subscription, subscription.inflightTxs
      ensures expirations.Valid() && state.Valid() && subscription.Valid()
      ensures state.chainTip == old(state.chainTip) + 1 && chainTip == old(chainTip) + 1
      ensures expirations.byTx == old(expirations.byTx) - Elems(txs)
      ensures state.core == old(state.core).Commit(Elems(txs), state.numRetained)
      ensures subscription.Model() == old(subscription.Model()).CommitBlock(number, txs)
    {
      hide InflightState.Valid, SubscriptionProvider.Valid, TransactionExpirations.Valid;
      expirations.Remove(Elems(txs));
      state.CommitBlock(txs);
      chainTip := chainTip + 1;
      subscription.CommitBlock(number, txs);
    }

    /** Reverts the transactions that expire at the new chain tip, and their descendants. */
    method RevertExpired()
      requires Sound() && state.chainTip == chainTip && M.Agrees(Config(), Model())
      modifies Parts()
      ensures Sound() && state.chainTip == chainTip
      ensures M.Revert(old(Model()), M.ExpiringAt(old(Model()), chainTip)) == Some(Model())
    {
      hide InflightState.Valid, DependencyGraph.Valid, BatchGraph.Valid;
      hide SubscriptionProvider.Valid, TransactionExpirations.Valid, M.Revert;
      var expired := expirations.Get(chainTip);
      assert expired == M.ExpiringAt(Model(), chainTip);
      var r := RevertTransactions(expired);
      assert r.Ok?;  // "expired transactions must be part of the mempool"
    }

    /** Notifies the pool that the block in progress failed: all its transactions are reverted. */
    method RollbackBlock()
      requires Valid()
      requires blockInProgress.Some?  // "no block in progress to be failed"
      modifies this, Parts()
      ensures Valid()
      ensures M.RollbackBlock(old(Model())) == Some(Model())
    {
      hide InflightState.Valid, DependencyGraph.Valid, BatchGraph.Valid, M.Inv, M.Agrees;
      hide SubscriptionProvider.Valid, TransactionExpirations.Valid, M.Revert;
      S.RollbackBlockKeepsInv(Config(), Model());
      S.RollbackDemands(Config(), Model());
      var ids := blockInProgress.value;
      blockInProgress := None;
      assert ids <= batches.batches.Keys;  // "batch from a block must be in the mempool"
      var txs := TxsOf(batches.batches, ids);
      var r := RevertTransactions(txs);
      assert r.Ok?;  // "transactions from a block must be part of the mempool"
    }

    /** Starts an event subscription at the current chain tip. */
    method Subscribe(tip: nat) returns (r: Outcome<nat>)
      requires Valid()
      modifies this, Parts()
      ensures Valid()
      ensures Model() == old(Model()).(
        stream := old(subscription.Model().Subscribe(tip).Else(subscription.Model())))
      ensures r == old(subscription.Model()).Subscribe(tip).Report()
    {
      hide InflightState.Valid, DependencyGraph.Valid, BatchGraph.Valid, M.Inv;
      hide SubscriptionProvider.Valid, TransactionExpirations.Valid;
      S.SubscribeKeepsInv(Config(), Model(), tip);
      r := subscription.Subscribe(tip);
    }
  }
}
