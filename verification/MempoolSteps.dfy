/** Each operation of the mempool keeps the invariant, and none of its `expect`s fires. */
module MempoolSteps {
  import opened Prelude
  import opened Dags
  import opened Transactions
  import opened InflightCores
  import opened TransactionGraphs
  import opened BatchGraphs
  import opened Quotients
  import opened Subscriptions
  import opened MempoolModel
  import opened MempoolRevert

  // ---------------------------------------------------------------------------------------------
  // Adding a transaction

  /** The mempool with one more transaction, which nothing else depends on. */
  ghost function WithTx(p: Pool, tx: Tx): Pool {
    p.(core := p.core.Add(tx),
       txs := Dag(p.txs.parents[tx.id := ParentsIn(p.core.log, tx)],
                  p.txs.vertices[tx.id := tx], p.txs.processed),
       expiry := p.expiry[tx.id := tx.expiresAt],
       stream := p.stream.Publish(EventOf(tx)))
  }

  /** Adding never panics; it rejects what fails verification and otherwise inserts. */
  lemma AddIsExact(cfg: Config, p: Pool, tx: Tx)
    requires p.core.Consistent(p.tip) && TxsAgree(p.txs, p.core.log)
    requires StreamAgrees(p.stream, p.core.log, p.tip)
    requires tx.id !in Ids(p.core.log)
    ensures var v := p.core.Verify(p.tip, cfg.slack, tx);
      AddTransaction(cfg, p, tx) ==
        Some(if v.Pass? then (WithTx(p, tx), Ok(p.tip)) else (p, Err(v.error)))
    ensures WithTx(p, tx).txs.WellFormed()
  {
    EventIdsOf(p.core.log);
    ParentsArePredecessors(p.core.log, tx);
    InsertIsExact(p.txs, tx, ParentsIn(p.core.log, tx));
  }

  lemma InsertIsExact(d: Dag<Tx>, tx: Tx, parents: set<nat>)
    requires d.WellFormed() && tx.id !in d.parents && parents <= d.parents.Keys
    ensures var d' := Dag(d.parents[tx.id := parents], d.vertices[tx.id := tx], d.processed);
      Insert(d, tx, parents) == Ok(d') && d'.WellFormed()
  {
    InsertKeepsWellFormed(d, tx.id, parents);
  }

  /** Nothing in the mempool stands in the way of a transaction's id. */
  ghost predicate Insertable(p: Pool, tx: Tx) {
    var insertable :=
      && tx.id !in EventIds(p.stream.log) && tx.id !in p.expiry
      && Insert(p.txs, tx, ParentsIn(p.core.log, tx)) == Ok(WithTx(p, tx).txs)
      && WithTx(p, tx).txs.WellFormed();
    insertable
  }

  lemma CanInsert(p: Pool, tx: Tx)
    requires TxsAgree(p.txs, p.core.log) && StreamAgrees(p.stream, p.core.log, p.tip)
    requires ExpiryAgrees(p.expiry, p.core.log) && tx.id !in Ids(p.core.log)
    ensures tx.id !in p.txs.parents && Insertable(p, tx)
  {
    EventIdsOf(p.core.log);
    ParentsArePredecessors(p.core.log, tx);
    InsertIsExact(p.txs, tx, ParentsIn(p.core.log, tx));
  }

  /** Adding panics exactly when a transaction passes verification under the id of one that is
      still uncommitted. */
  lemma AddPanics(cfg: Config, p: Pool, tx: Tx)
    requires Inv(cfg, p)
    ensures AddTransaction(cfg, p, tx).None? <==>
            p.core.Verify(p.tip, cfg.slack, tx).Pass? && tx.id in Ids(p.core.log)
  {
    EventIdsOf(p.core.log);
    if tx.id !in Ids(p.core.log) {
      AddIsExact(cfg, p, tx);
    }
  }

  /** The whole effect of adding on a valid mempool: a rejected transaction changes nothing, an
      accepted one is appended. */
  lemma AddOutcome(cfg: Config, p: Pool, tx: Tx)
    requires Inv(cfg, p) && NewIfValid(p.core, p.tip, cfg.slack, tx)
    ensures p.core.Verify(p.tip, cfg.slack, tx).Pass? ==>
      tx.id !in p.txs.parents && Insertable(p, tx)
    ensures var v := p.core.Verify(p.tip, cfg.slack, tx);
      if v.Fail? then AddTransaction(cfg, p, tx) == Some((p, Err(v.error)))
      else AddTransaction(cfg, p, tx) == Some((WithTx(p, tx), Ok(p.tip)))
           && Inv(cfg, WithTx(p, tx))
  {
    if p.core.Verify(p.tip, cfg.slack, tx).Pass? {
      Members(p.core.Past(), p.core.log);
      CanInsert(p, tx);
      AddIsExact(cfg, p, tx);
      hide Inv, Insertable, Core.Verify, Admissible, Ids, AddTransaction;
      VerifiedIsAdmissible(p.core, p.tip, cfg.slack, tx);
      WithTxInv(cfg, p, tx);
    }
  }

  lemma WithTxInv(cfg: Config, p: Pool, tx: Tx)
    requires Inv(cfg, p) && Admissible(p.core, tx) && tx.id !in Ids(p.core.log)
    requires WithTx(p, tx).txs.WellFormed() && tx.expiresAt > p.tip
    ensures Inv(cfg, WithTx(p, tx))
  {
    AddKeepsConsistent(p.core, p.tip, tx);
    AddedParts(p, tx);
    AddedBatches(cfg.idOf, p.txs, p.batches, tx.id, ParentsIn(p.core.log, tx), WithTx(p, tx).txs);
    Assemble(cfg, WithTx(p, tx));
  }

  lemma AddedParts(p: Pool, tx: Tx)
    requires TxsAgree(p.txs, p.core.log)
    requires ExpiryAgrees(p.expiry, p.core.log)
    requires StreamAgrees(p.stream, p.core.log, p.tip)
    requires Unexpired(p.core.log, p.tip)
    requires tx.id !in Ids(p.core.log) && tx.expiresAt > p.tip
    requires WithTx(p, tx).txs.WellFormed()
    ensures TxsAgree(WithTx(p, tx).txs, p.core.log + [tx])
    ensures ExpiryAgrees(p.expiry[tx.id := tx.expiresAt], p.core.log + [tx])
    ensures StreamAgrees(p.stream.Publish(EventOf(tx)), p.core.log + [tx], p.tip)
    ensures Unexpired(p.core.log + [tx], p.tip)
  {
    AddedTxs(p, tx);
    AddedExpiry(p, tx);
    AddedStream(p, tx);
    UnexpiredPush(p.core.log, tx, p.tip);
  }

  lemma UnexpiredPush(log: seq<Tx>, tx: Tx, tip: nat)
    requires Unexpired(log, tip) && tx.expiresAt > tip
    ensures Unexpired(log + [tx], tip)
  {
    Members(log, [tx]);
  }

  lemma AddedTxs(p: Pool, tx: Tx)
    requires TxsAgree(p.txs, p.core.log) && tx.id !in Ids(p.core.log)
    requires WithTx(p, tx).txs.WellFormed()
    ensures TxsAgree(WithTx(p, tx).txs, p.core.log + [tx])
  {
    UnfoldEdges(p.core.log, tx);
    VerticesPush(p.txs.vertices, p.core.log, tx);
  }

  lemma VerticesPush(vertices: map<nat, Tx>, log: seq<Tx>, tx: Tx)
    requires VerticesAgree(vertices, log) && tx.id !in Ids(log)
    ensures VerticesAgree(vertices[tx.id := tx], log + [tx])
  {
    Members(log, [tx]);
    Single(tx);
  }

  lemma AddedExpiry(p: Pool, tx: Tx)
    requires ExpiryAgrees(p.expiry, p.core.log) && tx.id !in Ids(p.core.log)
    ensures ExpiryAgrees(p.expiry[tx.id := tx.expiresAt], p.core.log + [tx])
  {
    Members(p.core.log, [tx]);
    Single(tx);
  }

  lemma AddedBatches(idOf: BatchIds, d: Dag<Tx>, s: Batches, id: nat, ps: set<nat>, d': Dag<Tx>)
    requires d.WellFormed() && Laid(idOf, d, s) && id !in d.parents
    requires d'.parents == d.parents[id := ps] && d'.processed == d.processed
    requires forall t :: t in d.vertices ==> t in d'.vertices && d'.vertices[t] == d.vertices[t]
    ensures Laid(idOf, d', s)
  {
    QuotientFrame(d.parents, d'.parents, s);
    DerivedFrame(idOf, s.batchTxs, d.vertices, d'.vertices);
  }

  lemma AddedStream(p: Pool, tx: Tx)
    requires StreamAgrees(p.stream, p.core.log, p.tip)
    ensures StreamAgrees(p.stream.Publish(EventOf(tx)), p.core.log + [tx], p.tip)
  {
    EventsPush(p.core.log, tx);
    PublishKeepsSync(p.stream, EventOf(tx));
  }

  // ---------------------------------------------------------------------------------------------
  // Selecting a batch

  lemma TxIdsOfContents(batch: seq<Tx>)
    ensures |TxIds(ContentsOf(batch))| == |batch|
    ensures Elems(TxIds(ContentsOf(batch))) == Ids(batch)
    ensures (forall i, j :: 0 <= i < j < |batch| ==> batch[i].id != batch[j].id) ==>
            NoDup(TxIds(ContentsOf(batch)))
  {
    var txs := TxIds(ContentsOf(batch));
    forall t | t in batch ensures t.id in txs {
      var i :| 0 <= i < |batch| && batch[i] == t;
      assert txs[i] == t.id;
    }
  }

  /** A selection in execution order is still in that order as a list of ids. */
  lemma SelectionOrder(d: Dag<Tx>, batch: seq<Tx>)
    requires d.WellFormed() && Ordered(d, batch)
    ensures NoDup(TxIds(ContentsOf(batch)))
    ensures ExecutionOrder(d.parents, TxIds(ContentsOf(batch)))
    ensures Ids(batch) !! d.processed && Ids(batch) <= d.vertices.Keys
  {
    TxIdsOfContents(batch);
    forall i, j | 0 <= i < j < |batch| ensures batch[i].id != batch[j].id {
      assert batch[i] in batch && batch[j] in batch;
    }
    var txs := TxIds(ContentsOf(batch));
    forall i, j | 0 <= i <= j < |txs| && txs[i] in d.parents ensures txs[j] !in d.parents[txs[i]] {
      assert d.parents[batch[i].id] <= d.processed + Ids(batch[..i]);
      assert batch[j] in batch;
      forall t | t in batch[..i] ensures t.id != txs[j] {
        var k :| 0 <= k < i && batch[k] == t;
        assert batch[k].id != batch[j].id;
      }
    }
  }

  /** A new batch's id is not in use: equal ids mean equal contents, and a batch's transactions
      are never selected twice. */
  lemma FreshBatchId(idOf: BatchIds, d: Dag<Tx>, s: Batches, contents: Contents)
    requires Injective(idOf) && Laid(idOf, d, s)
    requires TxIds(contents) != [] && TxIds(contents)[0] !in s.txBatch
    ensures idOf(contents) !in s.batchTxs
  {
    forall b | b in s.batchTxs ensures b != idOf(contents) {
      var c: Contents :| Lists(c, s.batchTxs[b], d.vertices) && idOf(c) == b;
      ListsIds(c, s.batchTxs[b], d.vertices);
      assert TxIds(contents)[0] !in TxIds(c);
      assert c != contents;
    }
  }

  /** The outside parents of a selection are processed, hence in batches. */
  lemma ParentsAreBatched(d: Dag<Tx>, batch: seq<Tx>)
    requires d.WellFormed() && Ordered(d, batch)
    ensures var txs := TxIds(ContentsOf(batch));
      && d.ParentsOfAll(Ids(batch)) - Elems(txs) == Outside(d.parents, txs)
      && Outside(d.parents, txs) <= d.processed
  {
    TxIdsOfContents(batch);
    var txs := TxIds(ContentsOf(batch));
    assert forall t :: t in txs <==> t in Elems(txs);
    forall t | t in batch ensures d.parents[t.id] <= d.processed + Ids(batch) {
      var i :| 0 <= i < |batch| && batch[i] == t;
      assert d.parents[batch[i].id] <= d.processed + Ids(batch[..i]);
    }
  }

  lemma InsertBatchIsExact(s: Batches, contents: Contents, parents: set<nat>, idOf: BatchIds)
    requires s.Indexed() && idOf(contents) !in s.batchTxs
    requires Elems(TxIds(contents)) !! s.txBatch.Keys
    requires parents - Elems(TxIds(contents)) <= s.txBatch.Keys
    ensures var txs, id := TxIds(contents), idOf(contents);
      s.Insert(contents, parents, idOf) == Ok(Batches(
        s.dag.(parents := s.dag.parents[id := s.BatchesOf(parents - Elems(txs))]),
        s.txBatch + (map t | t in Elems(txs) :: id),
        s.batchTxs[id := txs]))
  {
    var txs := TxIds(contents);
    IntersectionEmpty(Elems(txs), s.txBatch.Keys);
    DifferenceEmpty(parents - Elems(txs), s.txBatch.Keys);
    assert s.BatchesOf(parents - Elems(txs)) <= s.batchTxs.Keys;
  }

  lemma ContentsAreListed(d: Dag<Tx>, batch: seq<Tx>)
    requires Ordered(d, batch)
    ensures Lists(ContentsOf(batch), TxIds(ContentsOf(batch)), d.vertices)
  {
  }

  /** The mempool after the transactions of `batch` became the batch `id`. */
  ghost function WithBatch(p: Pool, id: nat, batch: seq<Tx>): Pool {
    var txs := TxIds(ContentsOf(batch));
    p.(txs := p.txs.(processed := p.txs.processed + Ids(batch)),
       batches := Batches(
         p.batches.dag.(parents :=
           p.batches.dag.parents[id := p.batches.BatchesOf(Outside(p.txs.parents, txs))]),
         p.batches.txBatch + (map t | t in Elems(txs) :: id),
         p.batches.batchTxs[id := txs]))
  }

  /** Selecting a batch never panics. It changes nothing when no transaction fits; otherwise it
      turns a list of ready transactions in execution order into a new pending batch, whose
      parents are the batches of the transactions' parents. */
  lemma SelectBatchIsExact(cfg: Config, p: Pool)
    requires Inv(cfg, p)
    ensures var batch := SelectBatch(p.txs, cfg.batch).batch;
      && Ordered(p.txs, batch)
      && SelectNextBatch(cfg, p) ==
         Some(if batch == [] then (p, None) else
              var id := cfg.idOf(ContentsOf(batch));
              (WithBatch(p, id, batch), Some((id, batch))))
  {
    var s := SelectBatch(p.txs, cfg.batch);
    SelectionIsOrdered(p.txs, cfg.batch);
    if s.batch == [] {
      assert p.txs.processed + Ids([]) == p.txs.processed;
    } else {
      var contents := ContentsOf(s.batch);
      SelectionOrder(p.txs, s.batch);
      TxIdsOfContents(s.batch);
      assert s.batch[0] in s.batch && TxIds(contents)[0] == s.batch[0].id;
      FreshBatchId(cfg.idOf, p.txs, p.batches, contents);
      SelectionParents(p.txs, cfg.batch);
      ParentsAreBatched(p.txs, s.batch);
      InsertBatchIsExact(p.batches, contents, s.parents, cfg.idOf);
    }
  }

  /** `c` holds the ids and accounts of the transactions, in order. */
  predicate Pairs(c: Contents, batch: seq<Tx>) {
    |c| == |batch| && forall i :: 0 <= i < |c| ==> c[i] == (batch[i].id, batch[i].account)
  }

  /** A selected batch has the id of its transactions with their accounts, in order. */
  lemma BatchIdIsExact(cfg: Config, p: Pool, c: Contents)
    requires Inv(cfg, p) && Pairs(c, SelectBatch(p.txs, cfg.batch).batch) && c != []
    ensures SelectNextBatch(cfg, p).Some?
    ensures SelectNextBatch(cfg, p).value.1 ==
            Some((cfg.idOf(c), SelectBatch(p.txs, cfg.batch).batch))
  {
    SelectBatchIsExact(cfg, p);
    assert ContentsOf(SelectBatch(p.txs, cfg.batch).batch) == c;
  }

  /** The new batch is not one of the block in progress. */
  lemma BatchIsNew(cfg: Config, p: Pool)
    requires Inv(cfg, p)
    ensures var batch := SelectBatch(p.txs, cfg.batch).batch;
      batch != [] ==> cfg.idOf(ContentsOf(batch)) !in p.batches.batchTxs
  {
    SelectionIsOrdered(p.txs, cfg.batch);
    var batch := SelectBatch(p.txs, cfg.batch).batch;
    if batch != [] {
      SelectionOrder(p.txs, batch);
      TxIdsOfContents(batch);
      assert batch[0] in batch && TxIds(ContentsOf(batch))[0] == batch[0].id;
      FreshBatchId(cfg.idOf, p.txs, p.batches, ContentsOf(batch));
    }
  }

  lemma SelectBatchKeepsInv(cfg: Config, p: Pool)
    requires Inv(cfg, p)
    ensures SelectNextBatch(cfg, p).Some? && Inv(cfg, SelectNextBatch(cfg, p).value.0)
  {
    SelectBatchIsExact(cfg, p);
    SelectionIsOrdered(p.txs, cfg.batch);
    var batch := SelectBatch(p.txs, cfg.batch).batch;
    if batch != [] {
      var contents := ContentsOf(batch);
      SelectionOrder(p.txs, batch);
      TxIdsOfContents(batch);
      BatchIsNew(cfg, p);
      ParentsAreBatched(p.txs, batch);
      ContentsAreListed(p.txs, batch);
      var d' := p.txs.(processed := p.txs.processed + Ids(batch));
      WithBatchAgrees(cfg.idOf, p.txs, d', p.batches, contents);
      InsertBatchIsExact(p.batches, contents, p.txs.ParentsOfAll(Ids(batch)), cfg.idOf);
    }
  }

  lemma WithBatchAgrees(idOf: BatchIds, d: Dag<Tx>, d': Dag<Tx>, s: Batches,
                        contents: Contents)
    requires d.WellFormed() && Laid(idOf, d, s) && idOf(contents) !in s.batchTxs
    requires var txs := TxIds(contents);
      && txs != [] && NoDup(txs) && ExecutionOrder(d.parents, txs)
      && Elems(txs) !! d.processed && Lists(contents, txs, d.vertices)
      && d.ParentsOfAll(Elems(txs)) - Elems(txs) == Outside(d.parents, txs) <= d.processed
      && d' == d.(processed := d.processed + Elems(txs))
    ensures var r := s.Insert(contents, d.ParentsOfAll(Elems(TxIds(contents))), idOf);
      r.Ok? && Laid(idOf, d', r.value)
  {
    hide Quotient, ExecutionOrder, Dag.ParentsOfAll, Outside, NoDup;
    var txs, id := TxIds(contents), idOf(contents);
    var parents := d.ParentsOfAll(Elems(txs));
    InsertBatchIsExact(s, contents, parents, idOf);
    InsertKeepsBatches(s, contents, parents, idOf);
    InsertKeepsWellFormed(s.dag, id, s.BatchesOf(Outside(d.parents, txs)));
    SelectedQuotient(d, s, contents, parents, idOf);
    hide Dag.WellFormed, Batches.Indexed, Batches.Insert, Batches.BatchesOf;
    StillDerived(idOf, d, s, s.Insert(contents, parents, idOf).value, contents);
  }

  lemma StillDerived(idOf: BatchIds, d: Dag<Tx>, s: Batches, s': Batches, contents: Contents)
    requires s.txBatch.Keys == d.processed
    requires forall b :: b in s.batchTxs ==> Derived(idOf, b, s.batchTxs[b], d.vertices)
    requires Lists(contents, TxIds(contents), d.vertices)
    requires s'.txBatch == s.txBatch + map t | t in Elems(TxIds(contents)) :: idOf(contents)
    requires s'.batchTxs == s.batchTxs[idOf(contents) := TxIds(contents)]
    requires TxIds(contents) != [] && NoDup(TxIds(contents))
    ensures s'.txBatch.Keys == d.processed + Elems(TxIds(contents))
    ensures forall b :: b in s'.batchTxs ==> Derived(idOf, b, s'.batchTxs[b], d.vertices)
  {
  }

  lemma SelectedQuotient(d: Dag<Tx>, s: Batches, contents: Contents, parents: set<nat>,
                         idOf: BatchIds)
    requires d.WellFormed() && s.Indexed() && s.txBatch.Keys == d.processed
    requires Quotient(d.parents, s)
    requires TxIds(contents) != [] && NoDup(TxIds(contents))
    requires ExecutionOrder(d.parents, TxIds(contents))
    requires parents == d.ParentsOfAll(Elems(TxIds(contents)))
    requires s.Insert(contents, parents, idOf).Ok?
    ensures Quotient(d.parents, s.Insert(contents, parents, idOf).value)
  {
    QuotientInsert(d.parents, s, contents, parents, idOf);
  }

  // ---------------------------------------------------------------------------------------------
  // Rolling back a batch

  /** The mempool with some batches dissolved and their transactions back in the queue. */
  ghost function WithoutBatches(p: Pool, dropped: set<nat>): Pool {
    p.(txs := p.txs.(processed := p.txs.processed - TxsOf(p.batches.batchTxs, dropped)),
       batches := p.batches.Without(dropped))
  }

  /** Rolling back never panics. The failed batch and its descendants are dissolved and exactly
      their transactions are requeued; the nodes and edges of the transaction graph stay. */
  lemma RollbackBatchIsExact(cfg: Config, p: Pool, batch: nat)
    requires p.txs.WellFormed() && Laid(cfg.idOf, p.txs, p.batches)
    requires batch in p.batches.batchTxs
    ensures var dropped := Descendants(p.batches.dag.parents, {batch});
      && RollbackBatch(p, batch) == Some(WithoutBatches(p, dropped))
      && WithoutBatches(p, dropped).txs.WellFormed()
  {
    var dropped := Descendants(p.batches.dag.parents, {batch});
    RemovedKeys(p.batches, {batch});
    RequeueDropped(p.txs, p.batches, dropped);
  }

  lemma RequeueDropped(d: Dag<Tx>, s: Batches, dropped: set<nat>)
    requires d.WellFormed() && s.Indexed() && Quotient(d.parents, s)
    requires s.txBatch.Keys == d.processed
    requires Closed(s.dag.parents, dropped) && dropped <= s.batchTxs.Keys
    ensures var back := TxsOf(s.batchTxs, dropped);
      && d.RevertSubgraphs(back) == Ok(d.(processed := d.processed - back))
      && d.(processed := d.processed - back).WellFormed()
  {
    BackIsClosed(d.parents, s, d.processed, {}, dropped);
    var back := TxsOf(s.batchTxs, dropped);
    assert back - {} == back && d.processed - {} == d.processed;
    RequeueExact(d, back);
    RevertKeepsWellFormed(d, back);
  }

  /** A batch outside the block in progress can be rolled back at any time: no batch of the block
      descends from it. */
  lemma RollbackBatchKeepsInv(cfg: Config, p: Pool, batch: nat)
    requires Inv(cfg, p) && batch !in p.batches.dag.processed
    ensures RollbackBatch(p, batch).Some? && Inv(cfg, RollbackBatch(p, batch).value)
  {
    if batch in p.batches.batchTxs {
      RollbackBatchIsExact(cfg, p, batch);
      UnprocessedDescendants(p.batches.dag, {batch});
      WithoutBatchesInv(cfg, p, Descendants(p.batches.dag.parents, {batch}));
    }
  }

  lemma WithoutBatchesInv(cfg: Config, p: Pool, dropped: set<nat>)
    requires Inv(cfg, p) && WithoutBatches(p, dropped).txs.WellFormed()
    requires Closed(p.batches.dag.parents, dropped) && dropped <= p.batches.batchTxs.Keys
    requires dropped !! p.batches.dag.processed
    ensures Inv(cfg, WithoutBatches(p, dropped))
  {
    WithoutBatchesParts(cfg, p, dropped);
    Assemble(cfg, WithoutBatches(p, dropped));
  }

  lemma WithoutBatchesParts(cfg: Config, p: Pool, dropped: set<nat>)
    requires Laid(cfg.idOf, p.txs, p.batches)
    requires Closed(p.batches.dag.parents, dropped) && dropped <= p.batches.batchTxs.Keys
    requires dropped !! p.batches.dag.processed
    ensures var q := WithoutBatches(p, dropped);
      && Laid(cfg.idOf, q.txs, q.batches)
      && q.batches.dag.processed == p.batches.dag.processed
  {
    MinusNone(p.txs.parents);
    RevertedBatches(cfg.idOf, p.txs, WithoutBatches(p, dropped).txs, p.batches, {}, dropped);
  }

  lemma MinusNone(e: Edges)
    ensures e - {} == e
  {
  }

  lemma {:induction false} UnprocessedDescendants<V>(d: Dag<V>, keys: set<nat>)
    requires d.WellFormed() && keys !! d.processed && keys <= d.parents.Keys
    ensures Descendants(d.parents, keys) !! d.processed
  {
    var t := d.parents.Keys - d.processed;
    assert Closed(d.parents, t);
    DescendantsLeast(d.parents, keys, t);
  }

  // ---------------------------------------------------------------------------------------------
  // Proofs and block selection

  /** Submitting a proof panics exactly when the batch is known and was proven before. */
  lemma CommitBatchPanics(cfg: Config, p: Pool, batch: ProvenBatch)
    requires Inv(cfg, p)
    ensures CommitBatch(p, batch).None? <==> batch.id in p.batches.dag.vertices
  {
  }

  lemma CommitBatchKeepsInv(cfg: Config, p: Pool, batch: ProvenBatch)
    requires Inv(cfg, p) && batch.id !in p.batches.dag.vertices
    ensures CommitBatch(p, batch).Some? && Inv(cfg, CommitBatch(p, batch).value)
  {
    if batch.id in p.batches.batchTxs {
      ProvenAgrees(cfg.idOf, p.txs, p.batches, batch);
    }
  }

  lemma ProvenAgrees(idOf: BatchIds, d: Dag<Tx>, s: Batches, batch: ProvenBatch)
    requires Laid(idOf, d, s) && batch.id in s.batchTxs && batch.id !in s.dag.vertices
    ensures var r := s.SubmitProof(batch);
      && r == Ok(s.(dag := s.dag.(vertices := s.dag.vertices[batch.id := batch])))
      && Laid(idOf, d, r.value)
  {
    SubmitKeepsBatches(s, batch);
    SameQuotient(d.parents, s, s.SubmitProof(batch).value);
  }

  lemma SameQuotient(e: Edges, s: Batches, s': Batches)
    requires Quotient(e, s)
    requires s'.txBatch == s.txBatch && s'.batchTxs == s.batchTxs
    requires s'.dag.parents == s.dag.parents
    ensures Quotient(e, s')
  {
  }

  /** Selecting a block marks the selected batches, which were all proven. */
  lemma SelectBlockIsExact(cfg: Config, p: Pool)
    requires p.batches.WellFormed() && p.block.None? && p.batches.dag.processed == {}
    ensures var batches := SelectBlock(p.batches.dag, cfg.block).batches;
      && BlockOrdered(p.batches.dag, batches)
      && SelectNextBlock(cfg, p) == Some((WithBlock(p, BatchIdsOf(batches)), p.tip + 1, batches))
      && WithBlock(p, BatchIdsOf(batches)).batches.dag.WellFormed()
  {
    var s := SelectBlock(p.batches.dag, cfg.block);
    BlockIsOrdered(p.batches.dag, cfg.block);
    assert p.batches.dag.processed + BatchIdsOf(s.batches) == BatchIdsOf(s.batches);
  }

  ghost function WithBlock(p: Pool, ids: set<nat>): Pool {
    p.(batches := p.batches.(dag := p.batches.dag.(processed := ids)), block := Some(ids))
  }

  lemma WithBlockInv(cfg: Config, p: Pool, ids: set<nat>)
    requires Inv(cfg, p) && WithBlock(p, ids).batches.dag.WellFormed()
    ensures Inv(cfg, WithBlock(p, ids))
  {
    MarkedAgrees(cfg.idOf, p.txs, p.batches, WithBlock(p, ids).batches.dag);
  }

  lemma SelectBlockKeepsInv(cfg: Config, p: Pool)
    requires Inv(cfg, p) && p.block.None?
    ensures SelectNextBlock(cfg, p).Some? && Inv(cfg, SelectNextBlock(cfg, p).value.0)
  {
    SelectBlockIsExact(cfg, p);
    WithBlockInv(cfg, p, BatchIdsOf(SelectBlock(p.batches.dag, cfg.block).batches));
  }

  lemma MarkedAgrees(idOf: BatchIds, d: Dag<Tx>, s: Batches, dag: Dag<ProvenBatch>)
    requires Laid(idOf, d, s) && dag.WellFormed()
    requires dag == s.dag.(processed := dag.processed)
    ensures Laid(idOf, d, s.(dag := dag))
  {
    hide Quotient, Dag.WellFormed, Derived;
    SameQuotient(d.parents, s, s.(dag := dag));
    MarkedIndexed(s, dag);
    hide Batches.Indexed;
  }

  lemma MarkedIndexed(s: Batches, dag: Dag<ProvenBatch>)
    requires s.Indexed() && dag == s.dag.(processed := dag.processed)
    ensures s.(dag := dag).Indexed()
  {
  }

  // ---------------------------------------------------------------------------------------------
  // Committing and rolling back a block

  /** The invariant, in parts. */
  lemma Parts(cfg: Config, p: Pool)
    requires Inv(cfg, p)
    ensures p.core.Consistent(p.tip) && TxsAgree(p.txs, p.core.log)
    ensures ExpiryAgrees(p.expiry, p.core.log) && Laid(cfg.idOf, p.txs, p.batches)
    ensures StreamAgrees(p.stream, p.core.log, p.tip) && Unexpired(p.core.log, p.tip)
    ensures p.txs.WellFormed() && p.batches.WellFormed()
    ensures p.batches.txBatch.Keys == p.txs.processed && Quotient(p.txs.parents, p.batches)
    ensures p.txs.processed <= p.txs.parents.Keys == Ids(p.core.log)
    ensures p.block.Some? ==> p.block.value == p.batches.dag.processed <= p.batches.batchTxs.Keys
  {
    assert p.txs.processed <= p.txs.parents.Keys &&
           (p.block.Some? ==> p.batches.dag.processed <= p.batches.batchTxs.Keys) by
    {
      hide Quotient, Core.Consistent, StreamAgrees, ExpiryAgrees, Unexpired;
    }
    hide Quotient, Dag.WellFormed, Batches.WellFormed, Core.Consistent, StreamAgrees, ExpiryAgrees;
    hide Unexpired;
  }

  /** The transactions of the block in progress. */
  function BlockTxs(p: Pool): set<nat> {
    TxsOf(p.batches.batchTxs, p.batches.dag.processed)
  }

  /** The block's transactions are processed and take all their ancestors with them. */
  lemma BlockIsAncestorClosed(d: Dag<Tx>, s: Batches)
    requires d.WellFormed() && s.WellFormed() && s.txBatch.Keys == d.processed
    requires Quotient(d.parents, s)
    ensures TxsOf(s.batchTxs, s.dag.processed) <= d.processed
    ensures AncestorClosed(d.parents, TxsOf(s.batchTxs, s.dag.processed))
  {
    BlockIsProcessed(s);
    hide Quotient, AncestorClosed, TxsOf;
    AncestorsOfBatches(d.parents, s, s.dag.processed, d.processed);
  }

  lemma BlockIsProcessed(s: Batches)
    requires s.WellFormed()
    ensures TxsOf(s.batchTxs, s.dag.processed) <= s.txBatch.Keys
  {
    TxsOfDisjoint(s, s.dag.processed);
  }

  lemma AncestorsOfBatches(e: Edges, s: Batches, ids: set<nat>, processed: set<nat>)
    requires s.Indexed() && Quotient(e, s) && s.txBatch.Keys == processed
    requires forall b :: b in ids && b in s.dag.parents ==> s.dag.parents[b] <= ids
    requires forall k :: k in processed && k in e ==> e[k] <= processed
    ensures AncestorClosed(e, TxsOf(s.batchTxs, ids))
  {
    forall k, q | k in e && k in TxsOf(s.batchTxs, ids) && q in e[k]
      ensures q in TxsOf(s.batchTxs, ids)
    {
      assert k in s.txBatch;
      ParentsAreInBatches(e, s, ids, k, q);
    }
  }

  /** The batches after the block's are pruned. */
  function Unblocked(s: Batches): Batches {
    var ids := s.dag.processed;
    Batches(Dag(Shrunk(s.dag.parents, ids), s.dag.vertices - ids, {}),
            s.txBatch - TxsOf(s.batchTxs, ids), s.batchTxs - ids)
  }

  /** The mempool after the block's batches and transactions are pruned. */
  ghost function WithoutBlock(cfg: Config, p: Pool, number: nat): Pool {
    var done := BlockTxs(p);
    var ids := p.batches.dag.processed;
    Pool(p.tip + 1, p.core.Commit(done, cfg.retain),
         Dag(Shrunk(p.txs.parents, done), p.txs.vertices - done, p.txs.processed - done),
         p.expiry - done,
         Unblocked(p.batches), None,
         p.stream.CommitBlock(number, Concat(p.batches.batchTxs, ids)))
  }

  lemma PruneIsExact<V>(d: Dag<V>, keys: set<nat>)
    requires d.WellFormed() && keys <= d.processed
    requires AncestorClosed(d.parents, keys)
    ensures var d' := Dag(Shrunk(d.parents, keys), d.vertices - keys, d.processed - keys);
      d.PruneProcessed(keys) == Ok(d') && d'.WellFormed()
  {
    assert d.ParentsOfAll(keys) <= keys;
    PruneKeepsWellFormed(d, keys);
  }

  lemma ProcessedIsClosed<V>(d: Dag<V>)
    requires d.WellFormed()
    ensures AncestorClosed(d.parents, d.processed)
  {
  }

  /** Pruning the block never panics: its batches and transactions are known, processed, and
      leave no parent dangling. */
  lemma PruneBlockIsExact(cfg: Config, p: Pool, number: nat)
    requires Inv(cfg, p) && p.block.Some?
    ensures PruneBlock(cfg, p, number) == Some(WithoutBlock(cfg, p, number))
    ensures WithoutBlock(cfg, p, number).txs.WellFormed()
    ensures WithoutBlock(cfg, p, number).batches.dag.WellFormed()
  {
    Parts(cfg, p);
    BlockIsAncestorClosed(p.txs, p.batches);
    ConcatLists(p.batches, p.batches.dag.processed);
    hide Inv, Quotient;
    UnblockedIsPruned(p.batches);
    PruneIsExact(p.txs, BlockTxs(p));
  }

  lemma {:induction false} WithoutBlockTxs(p: Pool, done: set<nat>)
    requires p.core.Consistent(p.tip) && AncestorClosed(p.txs.parents, done)
    requires TxsAgree(p.txs, p.core.log)
    requires var d := p.txs;
      Dag(Shrunk(d.parents, done), d.vertices - done, d.processed - done).WellFormed()
    ensures TxsAgree(Dag(Shrunk(p.txs.parents, done), p.txs.vertices - done,
                         p.txs.processed - done), Without(p.core.log, done))
  {
    SplitDistinct(p.core.Past(), p.core.log, done);
    EdgesWithoutAncestors(p.core.log, done);
    IdsWithout(p.core.log, done);
  }

  lemma {:induction false} WithoutBlockExpiry(p: Pool, done: set<nat>)
    requires ExpiryAgrees(p.expiry, p.core.log)
    ensures ExpiryAgrees(p.expiry - done, Without(p.core.log, done))
  {
    IdsWithout(p.core.log, done);
  }

  lemma {:induction false} WithoutBlockStream(p: Pool, done: set<nat>, list: seq<nat>)
    requires StreamAgrees(p.stream, p.core.log, p.tip) && Elems(list) == done
    ensures StreamAgrees(p.stream.CommitBlock(p.tip + 1, list), Without(p.core.log, done),
                         p.tip + 1)
  {
    EventsWithout(p.core.log, done);
    PublishKeepsSync(p.stream.(tip := p.tip + 1), BlockCommitted(p.tip + 1, list));
  }

  lemma UnblockedIsPruned(s: Batches)
    requires s.WellFormed()
    ensures s.Prune(s.dag.processed) == Ok(Unblocked(s)) && Unblocked(s).dag.WellFormed()
  {
    var ids := s.dag.processed;
    ProcessedIsClosed(s.dag);
    PruneIsExact(s.dag, ids);
    assert ids - ids == {};
  }

  lemma WithoutBlockBatches(idOf: BatchIds, d: Dag<Tx>, d': Dag<Tx>, s: Batches)
    requires Laid(idOf, d, s)
    requires var done := TxsOf(s.batchTxs, s.dag.processed);
      && d'.parents == Shrunk(d.parents, done) && d'.processed == d.processed - done
      && d'.vertices == d.vertices - done
    ensures Laid(idOf, d', Unblocked(s))
  {
    var ids := s.dag.processed;
    UnblockedIsPruned(s);
    ProcessedIsClosed(s.dag);
    PruneIsExact(s.dag, ids);
    PruneKeepsBatches(s, ids);
    QuotientPrune(d.parents, s, ids);
    hide Quotient, Dag.WellFormed, Batches.Prune;
    DerivedFrame(idOf, s.batchTxs - ids, d.vertices, d'.vertices);
  }

  lemma {:induction false} CommitKeepsLog(core: Core, done: set<nat>, retain: nat)
    ensures core.Commit(done, retain).log == Without(core.log, done)
  {
  }

  /** After the block is pruned all parts agree again, nothing is selected, and no transaction
      expired before the new tip. */
  lemma WithoutBlockAgrees(cfg: Config, p: Pool)
    requires Inv(cfg, p) && p.block.Some?
    ensures var q := WithoutBlock(cfg, p, p.tip + 1);
      && Agrees(cfg, q) && q.batches.dag.processed == {}
      && forall t :: t in q.core.log ==> t.expiresAt >= q.tip
  {
    var q := WithoutBlock(cfg, p, p.tip + 1);
    var done := BlockTxs(p);
    Parts(cfg, p);
    PruneBlockIsExact(cfg, p, p.tip + 1);
    BlockIsAncestorClosed(p.txs, p.batches);
    ConcatLists(p.batches, p.batches.dag.processed);
    hide Inv, TxsAgree, ExpiryAgrees, Laid, StreamAgrees, Quotient, Dag.WellFormed;
    hide Batches.WellFormed, Core.Consistent, PruneBlock, AncestorClosed, Unblocked, Concat;
    CommitKeepsLog(p.core, done, cfg.retain);
    CommitKeepsConsistent(p.core, p.tip, done, cfg.retain);
    WithoutBlockTxs(p, done);
    WithoutBlockExpiry(p, done);
    WithoutBlockStream(p, done, Concat(p.batches.batchTxs, p.batches.dag.processed));
    WithoutBlockBatches(cfg.idOf, p.txs, q.txs, p.batches);
    assert q.batches.dag.processed == {} by {
      NothingSelected(p.batches);
    }
  }

  lemma NothingSelected(s: Batches)
    ensures Unblocked(s).dag.processed == {}
  {
  }

  /** Looking expired transactions up by the exact height finds them all. */
  lemma {:induction false} ExpiryIsComplete(cfg: Config, q: Pool, gone: set<nat>)
    requires ExpiryAgrees(q.expiry, q.core.log) && ExpiringAt(q, q.tip) <= gone
    requires forall t :: t in q.core.log ==> t.expiresAt >= q.tip
    ensures Unexpired(Without(q.core.log, gone), q.tip)
  {
    forall t | t in Without(q.core.log, gone) ensures t.expiresAt > q.tip {
      assert t.id in q.expiry && t.id !in ExpiringAt(q, q.tip);
    }
  }

  /** A revert, with its result and what it keeps. */
  lemma {:induction false} Reverting(cfg: Config, p: Pool, txs: set<nat>)
    requires Agrees(cfg, p) && txs <= Ids(p.core.log)
    ensures var gone := Descendants(p.txs.parents, txs);
      var p' := WithoutTxs(p, gone, Dropped(p, gone));
      Revert(p, txs) == Some(p') && Agrees(cfg, p')
  {
    RevertKeepsAgreement(cfg, p, txs);
    assert p.txs.WellFormed() && Laid(cfg.idOf, p.txs, p.batches) && txs <= p.txs.parents.Keys by {
      hide Laid, ExpiryAgrees, StreamAgrees, Core.Consistent, Dag.WellFormed;
    }
    hide Agrees, Laid, Descendants, Dag.WellFormed;
    RevertIsExact(cfg, p, txs);
  }

  lemma ExpiringTracked(cfg: Config, p: Pool)
    requires Agrees(cfg, p)
    ensures ExpiringAt(p, p.tip) <= Ids(p.core.log)
  {
    AgreesOnExpiry(cfg, p);
  }

  lemma AgreesOnExpiry(cfg: Config, p: Pool)
    requires Agrees(cfg, p)
    ensures ExpiryAgrees(p.expiry, p.core.log)
  {
    hide Laid, TxsAgree, StreamAgrees, ExpiryAgrees, Core.Consistent;
  }

  /** Committing a block never panics and keeps the invariant; in particular nothing that is left
      expires at or below the new tip. The header's number must be the next one. */
  lemma CommitBlockKeepsInv(cfg: Config, p: Pool)
    requires Inv(cfg, p) && p.block.Some?
    ensures CommitBlock(cfg, p, p.tip + 1).Some?
    ensures Inv(cfg, CommitBlock(cfg, p, p.tip + 1).value)
  {
    var q := WithoutBlock(cfg, p, p.tip + 1);
    PruneBlockIsExact(cfg, p, p.tip + 1);
    WithoutBlockAgrees(cfg, p);
    assert q.block.None? && q.tip == p.tip + 1 && Injective(cfg.idOf);
    assert CommitBlock(cfg, p, p.tip + 1) == Revert(q, ExpiringAt(q, q.tip));
    hide Agrees, WithoutBlock, PruneBlock, CommitBlock, Descendants, Revert;
    var expired := ExpiringAt(q, q.tip);
    var gone := Descendants(q.txs.parents, expired);
    ExpiringTracked(cfg, q);
    AgreesOnExpiry(cfg, q);
    hide ExpiringAt;
    Reverting(cfg, q, expired);
    ExpiryIsComplete(cfg, q, gone);
    assert {} - Dropped(q, gone) == {};
  }

  lemma BlockIsDropped(p: Pool)
    requires p.batches.WellFormed() && Quotient(p.txs.parents, p.batches)
    ensures var gone := Descendants(p.txs.parents, BlockTxs(p));
      p.batches.dag.processed <= Dropped(p, gone)
  {
    var gone := Descendants(p.txs.parents, BlockTxs(p));
    forall b | b in p.batches.dag.processed ensures b in p.batches.BatchesOf(gone) {
      var t := p.batches.batchTxs[b][0];
      assert t in p.batches.batchTxs[b] && p.batches.txBatch[t] == b;
      assert t in BlockTxs(p);
    }
  }

  /** Rolling back a block never panics and keeps the invariant. */
  lemma RollbackBlockKeepsInv(cfg: Config, p: Pool)
    requires Inv(cfg, p) && p.block.Some?
    ensures RollbackBlock(p).Some? && Inv(cfg, RollbackBlock(p).value)
  {
    var q, txs := p.(block := None), BlockTxs(p);
    Parts(cfg, p);
    BlockIsAncestorClosed(p.txs, p.batches);
    BlockIsDropped(p);
    assert Agrees(cfg, q) && RollbackBlock(p) == Revert(q, txs);
    assert Injective(cfg.idOf);
    hide Agrees, TxsAgree, Laid, StreamAgrees, ExpiryAgrees, Core.Consistent, AncestorClosed;
    hide Inv, Quotient, Dag.WellFormed, Batches.WellFormed, Descendants, Revert, RollbackBlock;
    Reverting(cfg, q, txs);
    var gone := Descendants(p.txs.parents, txs);
    assert Dropped(q, gone) == Dropped(p, gone);
    assert p.batches.dag.processed - Dropped(p, gone) == {};
    StillUnexpired(p.core.log, gone, p.tip);
    RolledBack(cfg, q, gone, Dropped(q, gone));
  }

  lemma {:induction false} StillUnexpired(log: seq<Tx>, gone: set<nat>, tip: nat)
    requires Unexpired(log, tip)
    ensures Unexpired(Without(log, gone), tip)
  {
  }

  lemma {:induction false} RolledBack(cfg: Config, q: Pool, gone: set<nat>, dropped: set<nat>)
    requires Injective(cfg.idOf) && Agrees(cfg, WithoutTxs(q, gone, dropped)) && q.block.None?
    requires q.batches.dag.processed - dropped == {}
    requires Unexpired(Without(q.core.log, gone), q.tip)
    ensures Inv(cfg, WithoutTxs(q, gone, dropped))
  {
    hide Agrees;
  }

  // ---------------------------------------------------------------------------------------------
  // What the in-flight state, the tracker and the graph demand of a revert and of a commit

  lemma {:induction false} RevertDemands(cfg: Config, p: Pool, txs: set<nat>)
    requires Agrees(cfg, p)
    ensures p.txs.parents.Keys == Ids(p.core.log)
    ensures txs <= Ids(p.core.log) ==>
      var gone := Descendants(p.txs.parents, txs);
      && Revert(p, txs) == Some(WithoutTxs(p, gone, Dropped(p, gone)))
      && gone <= Ids(p.core.log) && Closed(EdgesOf(p.core.log), gone)
      && gone <= EventIds(p.stream.log)
  {
    EventIdsOf(p.core.log);
    if txs <= Ids(p.core.log) {
      RevertIsExact(cfg, p, txs);
    }
  }

  /** The block's transactions, as the list the node removes everywhere. */
  ghost predicate Committable(p: Pool) {
    var list := if p.block.Some? then Concat(p.batches.batchTxs, p.block.value) else [];
    var committable :=
      && NoDup(list) && Elems(list) <= Ids(p.core.log)
      && AncestorClosed(EdgesOf(p.core.log), Elems(list))
      && Elems(list) <= EventIds(p.stream.log);
    committable
  }

  lemma CommitBlockOutline(cfg: Config, p: Pool)
    requires Inv(cfg, p) && p.block.Some?
    ensures Committable(p)
    ensures PruneBlock(cfg, p, p.tip + 1).Some?
    ensures Agrees(cfg, PruneBlock(cfg, p, p.tip + 1).value)
    ensures PruneBlock(cfg, p, p.tip + 1).value.tip == p.tip + 1
  {
    ConcatLists(p.batches, p.batches.dag.processed);
    BlockIsAncestorClosed(p.txs, p.batches);
    EventIdsOf(p.core.log);
    PruneBlockIsExact(cfg, p, p.tip + 1);
    WithoutBlockAgrees(cfg, p);
  }

  lemma SubscribeKeepsInv(cfg: Config, p: Pool, tip: nat)
    requires Inv(cfg, p)
    ensures Inv(cfg, p.(stream := p.stream.Subscribe(tip).Else(p.stream)))
  {
    if p.stream.Subscribe(tip).Ok? {
      SubscribeSyncs(p.stream, tip);
    }
  }

  lemma RollbackDemands(cfg: Config, p: Pool)
    requires Inv(cfg, p) && p.block.Some?
    ensures p.block.value <= p.batches.batchTxs.Keys
    ensures Agrees(cfg, p.(block := None))
    ensures TxsOf(p.batches.batchTxs, p.block.value) <= Ids(p.core.log)
  {
    BlockIsAncestorClosed(p.txs, p.batches);
  }
}
