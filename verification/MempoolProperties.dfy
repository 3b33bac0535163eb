/** Undo laws of the mempool, and exactly when its calling protocol can be violated without harm. */
module MempoolProperties {
  import opened Prelude
  import opened Dags
  import opened Transactions
  import opened InflightCores
  import opened Subscriptions
  import opened TransactionGraphs
  import opened BatchGraphs
  import opened Quotients
  import opened MempoolModel
  import opened MempoolRevert
  import opened MempoolSteps

  /** Equality as the node compares mempools: the event stream does not take part. */
  ghost predicate SamePool(p: Pool, q: Pool) {
    q.(stream := p.stream) == p
  }

  // ---------------------------------------------------------------------------------------------
  // Selecting a batch and rolling it back

  /** A batch that fails right after it was selected leaves no trace. */
  lemma SelectThenRollback(cfg: Config, p: Pool)
    requires Inv(cfg, p)
    requires SelectBatch(p.txs, cfg.batch).batch != []
    ensures SelectNextBatch(cfg, p).Some? && SelectNextBatch(cfg, p).value.1.Some?
    ensures var r := SelectNextBatch(cfg, p).value;
      MempoolModel.RollbackBatch(r.0, r.1.value.0) == Some(p)
  {
    SelectBatchIsExact(cfg, p);
    SelectBatchKeepsInv(cfg, p);
    BatchIsNew(cfg, p);
    var batch := SelectBatch(p.txs, cfg.batch).batch;
    var id := cfg.idOf(ContentsOf(batch));
    var q := WithBatch(p, id, batch);
    RollbackBatchIsExact(cfg, q, id);
    NewBatchHasNoChildren(p, id, batch);
    DissolveNewBatch(p, id, batch);
  }

  lemma NewBatchHasNoChildren(p: Pool, id: nat, batch: seq<Tx>)
    requires p.batches.WellFormed() && id !in p.batches.batchTxs
    ensures Descendants(WithBatch(p, id, batch).batches.dag.parents, {id}) == {id}
  {
    var e := WithBatch(p, id, batch).batches.dag.parents;
    forall k | k in e ensures id !in e[k] {
      if k in p.batches.dag.parents {
        assert e[k] <= e.Keys;
      }
    }
    assert Closed(e, {id});
    DescendantsLeast(e, {id}, {id});
  }

  lemma DissolveNewBatch(p: Pool, id: nat, batch: seq<Tx>)
    requires p.batches.WellFormed() && id !in p.batches.batchTxs
    requires p.batches.txBatch.Keys == p.txs.processed && Ids(batch) !! p.txs.processed
    ensures WithoutBatches(WithBatch(p, id, batch), {id}) == p
  {
    var txs := TxIds(ContentsOf(batch));
    TxIdsOfContents(batch);
    var m := WithBatch(p, id, batch).batches.batchTxs;
    TxsOfOne(m, id);
    UndoInsert(p.batches.batchTxs, id, txs);
    UndoInsert(p.batches.dag.parents, id, p.batches.BatchesOf(Outside(p.txs.parents, txs)));
    UndoInserts(p.batches.txBatch, Elems(txs), id);
    assert p.batches.dag.vertices - {id} == p.batches.dag.vertices;
    assert p.batches.dag.processed - {id} == p.batches.dag.processed;
    assert p.txs.processed + Ids(batch) - Elems(txs) == p.txs.processed;
  }

  lemma TxsOfOne(m: map<nat, seq<nat>>, b: nat)
    requires b in m
    ensures TxsOf(m, {b}) == Elems(m[b])
  {
    forall t | t in m[b] ensures t in TxsOf(m, {b}) {
      assert b in {b};
    }
  }

  lemma UndoInsert<V>(m: map<nat, V>, k: nat, v: V)
    requires k !in m
    ensures m[k := v] - {k} == m
  {
  }

  lemma UndoInserts(m: map<nat, nat>, ks: set<nat>, v: nat)
    requires ks !! m.Keys
    ensures m + (map k | k in ks :: v) - ks == m
  {
  }

  // ---------------------------------------------------------------------------------------------
  // Adding transactions and reverting them

  /** The transaction side of a mempool is determined by its lists and the processed set. */
  lemma Determined(cfg: Config, p: Pool, q: Pool)
    requires Agrees(cfg, p) && Agrees(cfg, q)
    requires q.core.log == p.core.log && q.txs.processed == p.txs.processed
    ensures q.txs == p.txs && q.expiry == p.expiry && q.stream.log == p.stream.log
  {
    SameVertices(p.txs.vertices, q.txs.vertices, p.core.log);
    SameExpiry(p.expiry, q.expiry, p.core.log);
  }

  lemma SameVertices(v: map<nat, Tx>, v': map<nat, Tx>, log: seq<Tx>)
    requires VerticesAgree(v, log) && VerticesAgree(v', log)
    ensures v == v'
  {
    forall k | k in v ensures v'[k] == v[k] {
      var t :| t in log && t.id == k;
    }
  }

  lemma SameExpiry(x: map<nat, nat>, x': map<nat, nat>, log: seq<Tx>)
    requires ExpiryAgrees(x, log) && ExpiryAgrees(x', log)
    ensures x == x'
  {
    forall k | k in x ensures x'[k] == x[k] {
      var t :| t in log && t.id == k;
    }
  }

  /** Adding a list of transactions, all of which are accepted. */
  ghost predicate AllAccepted(cfg: Config, p: Pool, txs: seq<Tx>, q: Pool)
    requires Inv(cfg, p)
    decreases |txs|
  {
    if txs == [] then q == p else
      && txs[0].id !in Ids(p.core.All())
      && p.core.Verify(p.tip, cfg.slack, txs[0]).Pass?
      && Inv(cfg, WithTx(p, txs[0]))
      && AllAccepted(cfg, WithTx(p, txs[0]), txs[1..], q)
  }

  /** What a list of accepted transactions changes. */
  ghost predicate Extends(p: Pool, txs: seq<Tx>, q: Pool) {
    var extended :=
      && q.core == p.core.(log := p.core.log + txs)
      && q.txs.processed == p.txs.processed
      && p.txs.parents.Keys !! Ids(txs)
      && (forall k :: k in p.txs.parents ==>
            k in q.txs.parents && q.txs.parents[k] == p.txs.parents[k])
      && q.batches == p.batches && q.block == p.block && q.tip == p.tip;
    extended
  }

  lemma {:induction false} AcceptedExtend(cfg: Config, p: Pool, txs: seq<Tx>, q: Pool)
    requires Inv(cfg, p) && AllAccepted(cfg, p, txs, q)
    ensures Inv(cfg, q) && Extends(p, txs, q)
    decreases |txs|
  {
    if txs == [] {
      assert p.core.log + txs == p.core.log;
    } else {
      var p1 := WithTx(p, txs[0]);
      AcceptedExtend(cfg, p1, txs[1..], q);
      AddOutcome(cfg, p, txs[0]);
      ExtendOne(p, txs, q);
    }
  }

  lemma ExtendOne(p: Pool, txs: seq<Tx>, q: Pool)
    requires txs != [] && Extends(WithTx(p, txs[0]), txs[1..], q)
    requires txs[0].id !in p.txs.parents
    ensures Extends(p, txs, q)
  {
    assert txs == [txs[0]] + txs[1..];
    Members([txs[0]], txs[1..]);
    Single(txs[0]);
    assert p.core.log + [txs[0]] + txs[1..] == p.core.log + txs;
  }

  lemma ExtensionIsClosed(p: Pool, txs: seq<Tx>, q: Pool)
    requires Extends(p, txs, q) && TxsAgree(p.txs, p.core.log) && TxsAgree(q.txs, q.core.log)
    ensures Descendants(q.txs.parents, Ids(txs)) == Ids(txs)
    ensures Without(q.core.log, Ids(txs)) == p.core.log
  {
    Members(p.core.log, txs);
    var e := q.txs.parents;
    forall k | k in p.txs.parents ensures k in e && e[k] !! Ids(txs) {
    }
    forall k, x | k in e && x in e[k] && x in Ids(txs) ensures k in Ids(txs) {
      assert k !in p.txs.parents;
    }
    DescendantsLeast(e, Ids(txs), Ids(txs));
    WithoutAppend(p.core.log, txs, Ids(txs));
    WithoutNone(p.core.log, Ids(txs));
    WithoutAll(txs, Ids(txs));
  }

  /** Transactions that are added and then reverted leave no trace but events. */
  lemma {:induction false} AddThenRevert(cfg: Config, p: Pool, txs: seq<Tx>, q: Pool)
    requires Inv(cfg, p) && AllAccepted(cfg, p, txs, q)
    ensures Revert(q, Ids(txs)).Some? && SamePool(p, Revert(q, Ids(txs)).value)
  {
    AcceptedExtend(cfg, p, txs, q);
    ExtensionIsClosed(p, txs, q);
    Members(p.core.log, txs);
    RevertKeepsAgreement(cfg, q, Ids(txs));
    RevertIsExact(cfg, q, Ids(txs));
    NothingDropped(q, Ids(txs));
    Determined(cfg, p, Revert(q, Ids(txs)).value);
  }

  lemma NothingDropped(q: Pool, gone: set<nat>)
    requires q.batches.txBatch.Keys !! gone
    ensures Dropped(q, gone) == {}
    ensures WithoutTxs(q, gone, {}).batches == q.batches
    ensures WithoutTxs(q, gone, {}).txs.processed == q.txs.processed
  {
    assert q.batches.BatchesOf(gone) == {};
    DescendantsLeast(q.batches.dag.parents, {}, {});
    assert TxsOf(q.batches.batchTxs, {}) == {};
    assert q.batches.txBatch - {} == q.batches.txBatch;
    assert q.batches.batchTxs - {} == q.batches.batchTxs;
    assert q.batches.dag.vertices - {} == q.batches.dag.vertices;
    MinusNone(q.batches.dag.parents);
  }

  // ---------------------------------------------------------------------------------------------
  // The edges of the calling protocol

  /** Ids are derived from contents, so a batch that is rolled back and selected again gets its old
      id. When the prover of the first attempt reports after that of the second, the mempool
      panics. */
  lemma StaleProofPanics(cfg: Config, p: Pool, proof: ProvenBatch, stale: ProvenBatch)
    requires Inv(cfg, p)
    requires SelectBatch(p.txs, cfg.batch).batch != []
    requires proof.id == cfg.idOf(ContentsOf(SelectBatch(p.txs, cfg.batch).batch)) == stale.id
    ensures SelectNextBatch(cfg, p).Some?
    ensures var first := SelectNextBatch(cfg, p).value;
      && MempoolModel.RollbackBatch(first.0, proof.id).Some?
      && var again := SelectNextBatch(cfg, MempoolModel.RollbackBatch(first.0, proof.id).value);
         && again == Some(first)
         && MempoolModel.CommitBatch(first.0, proof).Some?
         && MempoolModel.CommitBatch(MempoolModel.CommitBatch(first.0, proof).value, stale).None?
  {
    SelectThenRollback(cfg, p);
    SelectBatchIsExact(cfg, p);
    SelectBatchKeepsInv(cfg, p);
    BatchIsNew(cfg, p);
    var first := SelectNextBatch(cfg, p).value.0;
    assert proof.id in first.batches.batchTxs && proof.id in first.batches.dag.parents;
    assert proof.id !in first.batches.dag.vertices by {
      assert first.batches.dag.vertices == p.batches.dag.vertices;
    }
    hide Inv, SelectBatch, SelectNextBatch, MempoolModel.RollbackBatch;
    SecondProofPanics(first, proof, stale);
  }

  /** A batch that is pending can be proven, but not twice. */
  lemma SecondProofPanics(p: Pool, proof: ProvenBatch, stale: ProvenBatch)
    requires proof.id in p.batches.batchTxs && proof.id in p.batches.dag.Pending()
    requires stale.id == proof.id
    ensures MempoolModel.CommitBatch(p, proof).Some?
    ensures MempoolModel.CommitBatch(MempoolModel.CommitBatch(p, proof).value, stale).None?
  {
  }

  /** A transaction that was accepted and is submitted again at once makes the mempool panic exactly
      when it has no notes of its own and leaves its account in the state it starts from. */
  lemma SecondCopyPanics(cfg: Config, p: Pool, tx: Tx)
    requires Inv(cfg, p) && tx.id !in Ids(p.core.All())
    requires p.core.Verify(p.tip, cfg.slack, tx).Pass?
    ensures AddTransaction(cfg, p, tx).Some?
    ensures var p' := AddTransaction(cfg, p, tx).value.0;
      && Inv(cfg, p')
      && (AddTransaction(cfg, p', tx).None? <==>
          tx.nullifiers == [] && tx.outputs == [] && tx.final == tx.initial)
  {
    AddOutcome(cfg, p, tx);
    var p' := AddTransaction(cfg, p, tx).value.0;
    assert p'.core == p.core.Add(tx) && p'.tip == p.tip && tx in p'.core.log;
    hide Inv, AddTransaction, Core.Verify, Core.Add;
    AddPanics(cfg, p', tx);
    PassesAgain(p.core, p.tip, cfg.slack, tx);
  }

  /** For instance in a new mempool. */
  lemma SecondCopyFromEmpty(cfg: Config, tip: nat, tx: Tx)
    requires Injective(cfg.idOf)
    requires tx.nullifiers == [] && tx.outputs == [] && tx.unauthenticated == {}
    requires tx.final == tx.initial == if tx.storeState.Some? then tx.storeState.value else 0
    requires tx.expiresAt > tip + cfg.slack && tx.authHeight >= tip
    ensures AddTransaction(cfg, Empty(tip), tx).Some?
    ensures AddTransaction(cfg, AddTransaction(cfg, Empty(tip), tx).value.0, tx).None?
  {
    EmptyInv(cfg, tip);
    var core := Empty(tip).core;
    assert core.All() == [];
    assert core.Verify(tip, cfg.slack, tx).Pass? by {
      assert Elems(tx.nullifiers) == {} && Elems(tx.outputs) == {};
    }
    hide Inv, AddTransaction, Core.Verify;
    SecondCopyPanics(cfg, Empty(tip), tx);
  }

  /** While a block is in progress, a known batch may be rolled back if and only if it is not in
      the block: otherwise committing the block panics. */
  lemma RollbackThenCommit(cfg: Config, p: Pool, b: nat, q: Pool)
    requires Inv(cfg, p) && p.block.Some? && b in p.batches.batchTxs
    requires MempoolModel.RollbackBatch(p, b) == Some(q)
    ensures MempoolModel.CommitBlock(cfg, q, q.tip + 1).Some? <==> b !in p.block.value
  {
    RollbackBatchIsExact(cfg, p, b);
    if b in p.block.value {
      MissingBatchPanics(cfg, p, q, b);
    } else {
      HarmlessRollback(cfg, p, b, q);
      CommitBlockKeepsInv(cfg, q);
    }
  }

  lemma HarmlessRollback(cfg: Config, p: Pool, b: nat, q: Pool)
    requires Inv(cfg, p) && p.block.Some? && b in p.batches.batchTxs && b !in p.block.value
    requires MempoolModel.RollbackBatch(p, b) == Some(q)
    ensures Inv(cfg, q) && q.block == p.block
  {
    RollbackBatchIsExact(cfg, p, b);
    RollbackBatchKeepsInv(cfg, p, b);
  }

  lemma MissingBatchPanics(cfg: Config, p: Pool, q: Pool, b: nat)
    requires p.block.Some? && b in p.block.value
    requires q == WithoutBatches(p, Descendants(p.batches.dag.parents, {b}))
    ensures MempoolModel.CommitBlock(cfg, q, q.tip + 1).None?
  {
    assert b !in q.batches.dag.parents;
    assert PruneBlock(cfg, q, q.tip + 1).None?;
  }

  // ---------------------------------------------------------------------------------------------
  // The replay of a subscription

  /** The keys of a map, ascending. */
  function Ascending(m: map<nat, Event>): (keys: seq<nat>)
    ensures |keys| == |InOrder(m)|
    ensures forall k {:trigger k in keys} :: k in keys <==> k in m
    decreases |m|
  {
    if m == map[] then [] else
      var k := Min(m.Keys);
      assert forall j :: j in m <==> j == k || j in m - {k};
      assert (m - {k}).Keys == m.Keys - {k};
      [k] + Ascending(m - {k})
  }

  lemma {:induction false} AscendingAt(m: map<nat, Event>, i: nat)
    requires i < |Ascending(m)|
    ensures Ascending(m)[i] in m && InOrder(m)[i] == m[Ascending(m)[i]]
    ensures forall j :: 0 <= j < i ==> Ascending(m)[j] < Ascending(m)[i]
    decreases |m|
  {
    assert Ascending(m)[i] in Ascending(m);
    var k := Min(m.Keys);
    var rest := m - {k};
    assert rest.Keys == m.Keys - {k};
    assert Ascending(m) == [k] + Ascending(rest) && InOrder(m) == [m[k]] + InOrder(rest);
    if i > 0 {
      AscendingAt(rest, i - 1);
      forall j | 0 <= j < i ensures Ascending(m)[j] < Ascending(m)[i] {
        if j > 0 {
          assert Ascending(m)[j] == Ascending(rest)[j - 1];
        } else {
          assert Ascending(m)[i] in rest;
        }
      }
    }
  }

  lemma IdsDiffer(log: seq<Tx>)
    requires Distinct(log)
    ensures forall i, j :: 0 <= i < j < |log| ==> log[i].id != log[j].id
  {
    forall i, j | 0 <= i < j < |log| ensures log[i].id != log[j].id {
      assert Independent(log[i], log[j]);
    }
  }

  /** A subscriber hears of a transaction after all that it depends on, and so does one to whom the
      tracked events are replayed: the keys of surviving parents are below their child's. */
  lemma {:induction false} ReplayIsCausal(m: map<nat, Event>, log: seq<Tx>, parent: nat, child: nat)
    requires InOrder(m) == EventsOf(log) && Distinct(log)
    requires parent in m && child in m && m[parent].Added? && m[child].Added?
    requires m[child].id in EdgesOf(log) && m[parent].id in EdgesOf(log)[m[child].id]
    ensures parent < child
  {
    IdsDiffer(log);
    var keys := Ascending(m);
    assert parent in keys && child in keys;
    var i :| 0 <= i < |keys| && keys[i] == parent;
    var j :| 0 <= j < |keys| && keys[j] == child;
    AscendingAt(m, i);
    AscendingAt(m, j);
    assert log[i].id == m[parent].id && log[j].id == m[child].id;
    EdgesPointBack(log, j);
    var s :| s in log[..j] && s.id == log[i].id;
    var l :| 0 <= l < j && log[l] == s;
  }
}
