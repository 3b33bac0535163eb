/** Reverting is exact: what remains of the mempool is what it would be had the reverted
    transactions never arrived, with the batches they touched dissolved. */
module MempoolRevert {
  import opened Prelude
  import opened Dags
  import opened Transactions
  import opened InflightCores
  import opened BatchGraphs
  import opened Quotients
  import opened Subscriptions
  import opened MempoolModel

  /** When the requeued transactions take their processed dependents with them, requeueing
      affects no other transaction. */
  lemma RequeueExact<V>(d: Dag<V>, keys: set<nat>)
    requires d.WellFormed() && keys <= d.processed
    requires forall k, p :: k in d.processed && p in d.parents[k] && p in keys ==> k in keys
    ensures d.RevertSubgraphs(keys) == Ok(d.(processed := d.processed - keys))
  {
    var t := keys + (d.parents.Keys - d.processed);
    assert Closed(d.parents, t);
    DescendantsLeast(d.parents, keys, t);
    assert d.processed - Descendants(d.parents, keys) == d.processed - keys;
  }

  /** The batches dropped when `gone` leaves the transaction graph. */
  ghost function Dropped(p: Pool, gone: set<nat>): set<nat> {
    Descendants(p.batches.dag.parents, p.batches.BatchesOf(gone))
  }

  /** The mempool without the transactions `gone`, and with the transactions of the dropped batches
      back in the queue. */
  ghost function WithoutTxs(p: Pool, gone: set<nat>, dropped: set<nat>): Pool {
    p.(txs := Dag(p.txs.parents - gone, p.txs.vertices - gone,
                  p.txs.processed - TxsOf(p.batches.batchTxs, dropped)),
       batches := p.batches.Without(dropped),
       expiry := p.expiry - gone,
       core := p.core.Revert(gone),
       stream := p.stream.Publish(TransactionsReverted(gone)))
  }

  lemma {:induction false} RemovedKeys(s: Batches, ids: set<nat>)
    requires s.Indexed() && s.Remove(ids).Ok?
    ensures s.batchTxs.Keys - s.Remove(ids).value.batchTxs.Keys == Descendants(s.dag.parents, ids)
  {
    RemoveKeepsBatches(s, ids);
  }

  /** The reverted transactions that were batched are all in dropped batches. */
  lemma GoneAreDropped(p: Pool, gone: set<nat>)
    requires p.batches.Indexed()
    ensures p.batches.BatchesOf(gone) <= Dropped(p, gone) <= p.batches.batchTxs.Keys
    ensures forall t :: t in gone && t in p.batches.txBatch ==>
      p.batches.txBatch[t] in Dropped(p, gone) && t in TxsOf(p.batches.batchTxs, Dropped(p, gone))
  {
    forall t | t in gone && t in p.batches.txBatch
      ensures p.batches.txBatch[t] in p.batches.BatchesOf(gone)
    {
    }
  }

  /** Of the dropped batches' transactions, those that stay can be requeued without touching any
      other processed transaction. */
  lemma BackIsClosed(e: Edges, s: Batches, processed: set<nat>, gone: set<nat>, dropped: set<nat>)
    requires s.Indexed() && Quotient(e, s) && s.txBatch.Keys == processed <= e.Keys
    requires Closed(s.dag.parents, dropped) && dropped <= s.batchTxs.Keys
    requires forall t :: t in gone && t in s.txBatch ==> t in TxsOf(s.batchTxs, dropped)
    ensures var back := TxsOf(s.batchTxs, dropped) - gone;
      && back <= processed - gone
      && (forall k, q :: k in processed - gone && q in e[k] && q in back ==> k in back)
      && processed - gone - back == processed - TxsOf(s.batchTxs, dropped)
  {
    var back := TxsOf(s.batchTxs, dropped) - gone;
    TxsOfDisjoint(s, dropped);
    forall k, q | k in processed - gone && q in e[k] && q in back ensures k in back {
      DependentsAreInBatches(e, s, dropped, k, q);
    }
  }

  /** No `expect` fires in a revert of known transactions, and its result is exact. */
  lemma {:induction false} RevertIsExact(cfg: Config, p: Pool, txs: set<nat>)
    requires p.txs.WellFormed() && Laid(cfg.idOf, p.txs, p.batches) && txs <= p.txs.parents.Keys
    ensures var gone := Descendants(p.txs.parents, txs);
      Revert(p, txs) == Some(WithoutTxs(p, gone, Dropped(p, gone)))
    ensures WithoutTxs(p, Descendants(p.txs.parents, txs),
                       Dropped(p, Descendants(p.txs.parents, txs))).txs.WellFormed()
  {
    var gone := Descendants(p.txs.parents, txs);
    var dropped := Dropped(p, gone);
    GoneAreDropped(p, gone);
    BackIsClosed(p.txs.parents, p.batches, p.txs.processed, gone, dropped);
    var back := TxsOf(p.batches.batchTxs, dropped) - gone;
    RequeueAfterPurge(p.txs, txs, back);
    RemovedKeys(p.batches, p.batches.BatchesOf(gone));
  }

  lemma {:induction false} RequeueAfterPurge<V>(d: Dag<V>, txs: set<nat>, back: set<nat>)
    requires d.WellFormed() && txs <= d.parents.Keys
    requires var gone := Descendants(d.parents, txs);
      && back <= d.processed - gone
      && forall k, q :: k in d.processed - gone && q in d.parents[k] && q in back ==> k in back
    ensures var gone := Descendants(d.parents, txs);
      && d.PurgeSubgraphs(txs) == Ok(d.Without(gone))
      && d.Without(gone).RevertSubgraphs(back)
         == Ok(Dag(d.parents - gone, d.vertices - gone, d.processed - gone - back))
      && Dag(d.parents - gone, d.vertices - gone, d.processed - gone - back).WellFormed()
  {
    var gone := Descendants(d.parents, txs);
    PurgeKeepsWellFormed(d, txs);
    RequeueExact(d.Without(gone), back);
    RevertKeepsWellFormed(d.Without(gone), back);
  }

  /** The reverted mempool again agrees in all its parts. */
  lemma RevertKeepsAgreement(cfg: Config, p: Pool, txs: set<nat>)
    requires Agrees(cfg, p) && txs <= Ids(p.core.log)
    ensures Revert(p, txs).Some? && Agrees(cfg, Revert(p, txs).value)
  {
    var gone := Descendants(p.txs.parents, txs);
    var dropped := Dropped(p, gone);
    RevertIsExact(cfg, p, txs);
    GoneAreDropped(p, gone);
    RevertKeepsConsistent(p.core, p.tip, gone);
    RevertedTxs(p, gone, dropped);
    RevertedBatches(cfg.idOf, p.txs, WithoutTxs(p, gone, dropped).txs, p.batches, gone, dropped);
    RevertedStream(p, gone);
  }

  lemma {:induction false} RevertedTxs(p: Pool, gone: set<nat>, dropped: set<nat>)
    requires p.core.Consistent(p.tip) && TxsAgree(p.txs, p.core.log)
    requires ExpiryAgrees(p.expiry, p.core.log)
    requires Closed(p.txs.parents, gone)
    requires WithoutTxs(p, gone, dropped).txs.WellFormed()
    ensures TxsAgree(WithoutTxs(p, gone, dropped).txs, Without(p.core.log, gone))
    ensures ExpiryAgrees(p.expiry - gone, Without(p.core.log, gone))
    ensures EdgesOf(Without(p.core.log, gone)) == EdgesOf(p.core.log) - gone
  {
    SplitDistinct(p.core.Past(), p.core.log, gone);
    EdgesWithoutDescendants(p.core.log, gone);
    IdsWithout(p.core.log, gone);
  }

  lemma {:induction false} IdsWithout(log: seq<Tx>, gone: set<nat>)
    ensures Ids(Without(log, gone)) == Ids(log) - gone
  {
    forall t | t in log && t.id !in gone ensures t in Without(log, gone) {
    }
  }

  lemma {:induction false} RevertedStream(p: Pool, gone: set<nat>)
    requires StreamAgrees(p.stream, p.core.log, p.tip)
    ensures StreamAgrees(p.stream.Publish(TransactionsReverted(gone)),
                         Without(p.core.log, gone), p.tip)
  {
    EventsWithout(p.core.log, gone);
    PublishKeepsSync(p.stream, TransactionsReverted(gone));
  }

  /** Dissolving a descendant-closed set of batches that covers the removed transactions. */
  lemma RevertedBatches(idOf: BatchIds, d: Dag<Tx>, d': Dag<Tx>, s: Batches,
                        gone: set<nat>, dropped: set<nat>)
    requires Laid(idOf, d, s) && dropped <= s.batchTxs.Keys
    requires Closed(s.dag.parents, dropped)
    requires forall t :: t in gone && t in s.txBatch ==> s.txBatch[t] in dropped
    requires d'.parents == d.parents - gone && d'.vertices == d.vertices - gone
    requires d'.processed == d.processed - TxsOf(s.batchTxs, dropped)
    ensures Laid(idOf, d', s.Without(dropped))
  {
    SubgraphWellFormed(s.dag, dropped);
    WithoutKeepsBatches(s, dropped, s.dag.Without(dropped));
    QuotientRemove(d.parents, s, dropped, gone);
    DerivedFrame(idOf, s.batchTxs - dropped, d.vertices, d'.vertices);
  }

  lemma SubgraphWellFormed<V>(d: Dag<V>, gone: set<nat>)
    requires d.WellFormed() && Closed(d.parents, gone)
    ensures d.Without(gone).WellFormed()
  {
    AcyclicShrink(d.parents, d.parents - gone);
  }
}
