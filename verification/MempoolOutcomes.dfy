/** What a revert and the two rollbacks leave of the mempool, told by paths of dependents. */
module MempoolOutcomes {
  import opened Prelude
  import opened Dags
  import opened Transactions
  import opened InflightCores
  import opened BatchGraphs
  import opened Quotients
  import opened MempoolModel
  import opened MempoolRevert
  import opened MempoolSteps

  /** The batch holds a transaction that is among the given ones or depends on one of them. */
  ghost predicate Hit(p: Pool, txs: set<nat>, b: nat) {
    exists t :: b in p.batches.batchTxs && t in p.batches.batchTxs[b] &&
                Reaches(p.txs.parents, txs, t)
  }

  ghost function HitBatches(p: Pool, txs: set<nat>): set<nat> {
    set b | b in p.batches.batchTxs && Hit(p, txs, b)
  }

  /** Exactly the other batches remain, as they were, and exactly their transactions are still
      processed. */
  ghost predicate Remain(p: Pool, lost: set<nat>, p': Pool) {
    && (forall b :: b in p'.batches.batchTxs <==> b in p.batches.batchTxs && b !in lost)
    && (forall b :: b in p'.batches.batchTxs ==>
          p'.batches.batchTxs[b] == p.batches.batchTxs[b])
    && (forall t :: t in p'.txs.processed <==>
          t in p.batches.txBatch && p.batches.txBatch[t] !in lost)
  }

  /** The transactions are gone that are reverted or depend on one that is; the batches are gone
      that are hit or depend on one that is, and what is left of them waits again. */
  ghost predicate Survive(p: Pool, txs: set<nat>, p': Pool) {
    var lost := set b |
      b in p.batches.batchTxs && Reaches(p.batches.dag.parents, HitBatches(p, txs), b);
    && (forall t :: t in p'.txs.parents <==>
          t in p.txs.parents && !Reaches(p.txs.parents, txs, t))
    && (forall t :: t in p'.core.log <==>
          t in p.core.log && !Reaches(p.txs.parents, txs, t.id))
    && Remain(p, lost, p')
  }

  lemma {:induction false} HitAre(p: Pool, txs: set<nat>, gone: set<nat>)
    requires p.batches.Indexed() && p.batches.txBatch.Keys <= p.txs.parents.Keys
    requires txs <= p.txs.parents.Keys && gone == Descendants(p.txs.parents, txs)
    ensures p.batches.BatchesOf(gone) == HitBatches(p, txs)
  {
    var e := p.txs.parents;
    forall b | b in p.batches.BatchesOf(gone) ensures b in p.batches.batchTxs && Hit(p, txs, b) {
      var t :| t in gone && t in p.batches.txBatch && p.batches.txBatch[t] == b;
      DescendantsAreReachable(e, txs, t);
      assert t in p.batches.batchTxs[b];
    }
    forall b | b in p.batches.batchTxs && Hit(p, txs, b) ensures b in p.batches.BatchesOf(gone) {
      var t :| t in p.batches.batchTxs[b] && Reaches(e, txs, t);
      DescendantsAreReachable(e, txs, t);
      assert p.batches.txBatch[t] == b;
    }
  }

  lemma {:induction false} ReachedAre(e: Edges, s: set<nat>)
    requires s <= e.Keys
    ensures Descendants(e, s) == set k | k in e && Reaches(e, s, k)
  {
    forall k | k in e ensures k in Descendants(e, s) <==> Reaches(e, s, k) {
      DescendantsAreReachable(e, s, k);
    }
  }

  lemma RemainIs(p: Pool, lost: set<nat>, p': Pool)
    requires p.batches.Indexed() && lost <= p.batches.batchTxs.Keys
    requires p'.batches == p.batches.Without(lost)
    requires p.txs.processed == p.batches.txBatch.Keys
    requires p'.txs.processed == p.txs.processed - TxsOf(p.batches.batchTxs, lost)
    ensures Remain(p, lost, p')
  {
    TxsOfDisjoint(p.batches, lost);
  }

  lemma SurviveIs(p: Pool, txs: set<nat>, gone: set<nat>, dropped: set<nat>)
    requires Ids(p.core.log) <= p.txs.parents.Keys
    requires p.batches.batchTxs.Keys == p.batches.dag.parents.Keys
    requires gone == set k | k in p.txs.parents && Reaches(p.txs.parents, txs, k)
    requires dropped ==
      set k | k in p.batches.dag.parents && Reaches(p.batches.dag.parents, HitBatches(p, txs), k)
    requires Remain(p, dropped, WithoutTxs(p, gone, dropped))
    ensures Survive(p, txs, WithoutTxs(p, gone, dropped))
  {
    hide Remain, HitBatches, Reaches;
    assert dropped ==
      set b | b in p.batches.batchTxs && Reaches(p.batches.dag.parents, HitBatches(p, txs), b);
    var p' := WithoutTxs(p, gone, dropped);
    assert p'.core.log == Without(p.core.log, gone);
    forall t | t in p.core.log ensures t.id in p.txs.parents {
      assert t.id in Ids(p.core.log);
    }
  }

  /** Reverting takes exactly those transactions and batches out. */
  lemma RevertLeaves(cfg: Config, p: Pool, txs: set<nat>)
    requires Agrees(cfg, p) && txs <= Ids(p.core.log)
    ensures Revert(p, txs).Some? && Survive(p, txs, Revert(p, txs).value)
  {
    RevertDemands(cfg, p, txs);
    BatchedAreTracked(cfg, p);
    hide Agrees, Revert, Remain, HitBatches, WithoutTxs, Survive, Descendants, Batches.Indexed;
    var gone := Descendants(p.txs.parents, txs);
    var dropped := Dropped(p, gone);
    GoneAreDropped(p, gone);
    HitAre(p, txs, gone);
    ReachedAre(p.txs.parents, txs);
    DroppedRemain(p, gone);
    ReachedAre(p.batches.dag.parents, HitBatches(p, txs));
    SurviveIs(p, txs, gone, dropped);
  }

  lemma DroppedRemain(p: Pool, gone: set<nat>)
    requires p.batches.Indexed() && p.txs.processed == p.batches.txBatch.Keys
    ensures Remain(p, Dropped(p, gone), WithoutTxs(p, gone, Dropped(p, gone)))
    ensures p.batches.BatchesOf(gone) <= p.batches.dag.parents.Keys
  {
    GoneAreDropped(p, gone);
    hide Descendants;
    RemainIs(p, Dropped(p, gone), WithoutTxs(p, gone, Dropped(p, gone)));
  }

  lemma BatchedAreTracked(cfg: Config, p: Pool)
    requires Agrees(cfg, p)
    ensures p.batches.Indexed() && p.txs.processed == p.batches.txBatch.Keys
    ensures p.txs.processed <= p.txs.parents.Keys
    ensures p.batches.batchTxs.Keys == p.batches.dag.parents.Keys
  {
    hide Core.Consistent, StreamAgrees, ExpiryAgrees, Quotient;
  }

  /** A batch that fails takes exactly the batches along that depend on it. */
  lemma RollbackBatchLeaves(cfg: Config, p: Pool, batch: nat)
    requires Agrees(cfg, p) && batch in p.batches.batchTxs
    ensures RollbackBatch(p, batch).Some?
    ensures var p' := RollbackBatch(p, batch).value;
      var lost := set b | b in p.batches.batchTxs && Reaches(p.batches.dag.parents, {batch}, b);
      Remain(p, lost, p') && p' == p.(txs := p'.txs, batches := p'.batches)
      && p'.txs.parents == p.txs.parents && p'.txs.vertices == p.txs.vertices
  {
    BatchedAreTracked(cfg, p);
    RollbackBatchIsExact(cfg, p, batch);
    var dropped := Descendants(p.batches.dag.parents, {batch});
    ReachedAre(p.batches.dag.parents, {batch});
    RemainIs(p, dropped, WithoutBatches(p, dropped));
    hide Agrees, Remain;
  }

  /** A block that fails takes its transactions out with all that depend on them, and with them
      their batches. */
  lemma RollbackBlockLeaves(cfg: Config, p: Pool)
    requires Inv(cfg, p) && p.block.Some?
    ensures RollbackBlock(p).Some? && RollbackBlock(p).value.block.None?
    ensures var txs := set b, t | b in p.block.value && b in p.batches.batchTxs &&
                                  t in p.batches.batchTxs[b] :: t;
      Survive(p, txs, RollbackBlock(p).value)
  {
    RollbackDemands(cfg, p);
    var q, txs := p.(block := None), TxsOf(p.batches.batchTxs, p.block.value);
    assert RollbackBlock(p) == Revert(q, txs);
    hide Inv, Agrees, Revert, RollbackBlock, Survive;
    RevertLeaves(cfg, q, txs);
    SurviveSame(p, q, txs, Revert(q, txs).value);
    RevertKeepsBlock(q, txs);
  }

  lemma RevertKeepsBlock(p: Pool, txs: set<nat>)
    ensures Revert(p, txs).Some? ==> Revert(p, txs).value.block == p.block
  {
  }

  lemma SurviveSame(p: Pool, q: Pool, txs: set<nat>, p': Pool)
    requires q.txs == p.txs && q.batches == p.batches && q.core == p.core && Survive(q, txs, p')
    ensures Survive(p, txs, p')
  {
    assert forall b :: Hit(q, txs, b) <==> Hit(p, txs, b);
    assert HitBatches(q, txs) == HitBatches(p, txs);
  }
}
