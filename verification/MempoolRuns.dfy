/** Whole runs of the mempool: nothing panics, transactions are committed once and after their
    parents, none is lost, and none is committed after it expired. */
module MempoolRuns {
  import opened Prelude
  import opened Dags
  import opened Transactions
  import opened InflightCores
  import opened BatchGraphs
  import opened Quotients
  import opened Subscriptions
  import opened MempoolModel
  import opened MempoolRevert
  import opened MempoolSteps

  /** What the outside world may do. The last two belong to the event subscriber. */
  datatype Action =
    | Add(tx: Tx)
    | SelectBatch
    | RollbackBatch(batch: nat)
    | CommitBatch(proof: ProvenBatch)
    | SelectBlock
    | CommitBlock
    | RollbackBlock
    | Subscribe(tip: nat)
    | Receive
    | Close

  /** The mempool together with the history of the run: the transactions of the block in progress
      in block order, the committed transactions in chain order with the block each went into,
      what was ever admitted, with the parents it had then, and what was reverted. */
  datatype World = World(
    pool: Pool,
    order: seq<nat>,
    committed: seq<nat>,
    height: map<nat, nat>,
    admitted: map<nat, Tx>,
    parentsOf: map<nat, set<nat>>,
    reverted: set<nat>)

  function Start(tip: nat): World {
    World(Empty(tip), [], [], map[], map[], map[], {})
  }

  /** The calling protocol. A transaction that passes verification is neither tracked nor committed
      under its id, but may have been reverted before; a batch that was selected for a block is not
      rolled back and a proven batch is not proven again; there is one block at a time. */
  ghost predicate Allowed(cfg: Config, w: World, a: Action)
    requires |w.pool.core.blocks| <= w.pool.tip
  {
    match a
    case Add(tx) =>
      w.pool.core.Verify(w.pool.tip, cfg.slack, tx).Pass? ==>
        tx.id !in Elems(w.committed) && tx.id !in Ids(w.pool.core.All())
    case RollbackBatch(b) => b !in w.pool.batches.dag.processed
    case CommitBatch(proof) => proof.id !in w.pool.batches.dag.vertices
    case SelectBlock => w.pool.block.None?
    case CommitBlock => w.pool.block.Some?
    case RollbackBlock => w.pool.block.Some?
    case _ => true
  }

  /** The transactions of a list of batches, batch by batch. */
  function BlockList(batchTxs: map<nat, seq<nat>>, batches: seq<ProvenBatch>): seq<nat> {
    if batches == [] then [] else
      var last := batches[|batches| - 1].id;
      BlockList(batchTxs, batches[..|batches| - 1]) +
        if last in batchTxs then batchTxs[last] else []
  }

  /** The descendants, in the dependency graph, of the transactions that expire with the block. */
  ghost function ExpiredWith(cfg: Config, p: Pool): set<nat> {
    var q := WithoutBlock(cfg, p, p.tip + 1);
    Descendants(q.txs.parents, ExpiringAt(q, q.tip))
  }

  function AtHeight(ids: seq<nat>, height: nat): map<nat, nat> {
    map t | t in Elems(ids) :: height
  }

  /** The world after the block in progress was committed and `gone` reverted. */
  function Extended(w: World, pool: Pool, gone: set<nat>): World {
    w.(pool := pool, order := [], committed := w.committed + w.order,
       height := w.height + AtHeight(w.order, w.pool.tip + 1),
       reverted := w.reverted + gone)
  }

  ghost function Committed(cfg: Config, w: World, pool: Pool): World {
    Extended(w, pool, ExpiredWith(cfg, w.pool))
  }

  ghost function Next(cfg: Config, w: World, a: Action): Option<World>
    requires |w.pool.core.blocks| <= w.pool.tip
  {
    match a
    case Add(tx) =>
      var r := AddTransaction(cfg, w.pool, tx);
      if r.None? then None else
      if r.value.1.Err? then Some(w) else
      Some(w.(pool := r.value.0, admitted := w.admitted[tx.id := tx],
              parentsOf := w.parentsOf[tx.id := ParentsIn(w.pool.core.log, tx)],
              reverted := w.reverted - {tx.id}))
    case SelectBatch =>
      var r := SelectNextBatch(cfg, w.pool);
      if r.None? then None else Some(w.(pool := r.value.0))
    case RollbackBatch(b) =>
      var r := MempoolModel.RollbackBatch(w.pool, b);
      if r.None? then None else Some(w.(pool := r.value))
    case CommitBatch(proof) =>
      var r := MempoolModel.CommitBatch(w.pool, proof);
      if r.None? then None else Some(w.(pool := r.value))
    case SelectBlock =>
      var r := SelectNextBlock(cfg, w.pool);
      if r.None? then None else
      Some(w.(pool := r.value.0, order := BlockList(w.pool.batches.batchTxs, r.value.2)))
    case CommitBlock =>
      var r := MempoolModel.CommitBlock(cfg, w.pool, w.pool.tip + 1);
      if r.None? then None else Some(Committed(cfg, w, r.value))
    case RollbackBlock =>
      var r := MempoolModel.RollbackBlock(w.pool);
      if r.None? then None else
      Some(w.(pool := r.value, order := [],
              reverted := w.reverted + Descendants(w.pool.txs.parents, BlockTxs(w.pool))))
    case Subscribe(tip) =>
      var s := w.pool.stream.Subscribe(tip).Else(w.pool.stream);
      Some(w.(pool := w.pool.(stream := s)))
    case Receive => Some(w.(pool := w.pool.(stream := w.pool.stream.Receive())))
    case Close => Some(w.(pool := w.pool.(stream := w.pool.stream.Close())))
  }

  // ---------------------------------------------------------------------------------------------
  // The invariant of a run

  /** Each element's dependencies come before it. */
  ghost predicate AfterParents(list: seq<nat>, parents: map<nat, set<nat>>, before: set<nat>) {
    forall i :: 0 <= i < |list| && list[i] in parents ==>
      parents[list[i]] <= before + Elems(list[..i])
  }

  /** Every admitted transaction is exactly one of: in the pool, committed, reverted and not
      submitted again. */
  ghost predicate Conserved(admitted: set<nat>, pooled: set<nat>, committed: set<nat>,
                            reverted: set<nat>)
  {
    var conserved :=
      && admitted == pooled + committed + reverted
      && pooled !! committed && pooled !! reverted && committed !! reverted;
    conserved
  }

  /** The edges of the pool are the original dependencies minus the committed ones. */
  ghost predicate EdgesRemain(edges: Edges, parentsOf: map<nat, set<nat>>, committed: set<nat>) {
    forall t :: t in edges ==> t in parentsOf && edges[t] == parentsOf[t] - committed
  }

  ghost predicate OrderAgrees(p: Pool, order: seq<nat>) {
    var agrees :=
      && NoDup(order)
      && Elems(order) == BlockTxs(p)
      && AfterParents(order, p.txs.parents, {});
    agrees
  }

  /** The transactions of a list are the admitted ones. */
  ghost predicate Remembered(log: seq<Tx>, admitted: map<nat, Tx>) {
    forall t :: t in log ==> t.id in admitted && admitted[t.id] == t
  }

  ghost predicate InTime(committed: seq<nat>, height: map<nat, nat>, admitted: map<nat, Tx>) {
    forall t :: t in committed ==>
      t in height && t in admitted && height[t] <= admitted[t].expiresAt
  }

  /** What the history of a run and the pool it led to have to do with each other. */
  ghost predicate History(w: World) {
    var agrees :=
      && w.admitted.Keys == w.parentsOf.Keys
      && Conserved(w.admitted.Keys, Ids(w.pool.core.log), Elems(w.committed), w.reverted)
      && EdgesRemain(w.pool.txs.parents, w.parentsOf, Elems(w.committed))
      && OrderAgrees(w.pool, w.order)
      && NoDup(w.committed)
      && AfterParents(w.committed, w.parentsOf, {})
      && Remembered(w.pool.core.log, w.admitted)
      && InTime(w.committed, w.height, w.admitted);
    agrees
  }

  ghost predicate WorldInv(cfg: Config, w: World) {
    Inv(cfg, w.pool) && History(w)
  }

  lemma AssembleHistory(w: World)
    requires w.admitted.Keys == w.parentsOf.Keys
    requires Conserved(w.admitted.Keys, Ids(w.pool.core.log), Elems(w.committed), w.reverted)
    requires EdgesRemain(w.pool.txs.parents, w.parentsOf, Elems(w.committed))
    requires OrderAgrees(w.pool, w.order)
    requires NoDup(w.committed)
    requires AfterParents(w.committed, w.parentsOf, {})
    requires Remembered(w.pool.core.log, w.admitted)
    requires InTime(w.committed, w.height, w.admitted)
    ensures History(w)
  {
  }

  lemma StartInv(cfg: Config, tip: nat)
    requires Injective(cfg.idOf)
    ensures WorldInv(cfg, Start(tip))
  {
    EmptyInv(cfg, tip);
    assert Ids([]) == {};
  }

  // ---------------------------------------------------------------------------------------------
  // Steps that neither admit nor remove transactions

  lemma SameTxs(cfg: Config, w: World, q: Pool)
    requires WorldInv(cfg, w) && Inv(cfg, q)
    requires q.core == w.pool.core && q.txs.parents == w.pool.txs.parents
    requires BlockTxs(q) == BlockTxs(w.pool)
    ensures WorldInv(cfg, w.(pool := q))
  {
  }

  lemma SelectBatchStep(cfg: Config, w: World)
    requires WorldInv(cfg, w)
    ensures var r := Next(cfg, w, SelectBatch); r.Some? && WorldInv(cfg, r.value)
  {
    var p := w.pool;
    SelectBatchIsExact(cfg, p);
    SelectBatchKeepsInv(cfg, p);
    BatchIsNew(cfg, p);
    var batch := TransactionGraphs.SelectBatch(p.txs, cfg.batch).batch;
    if batch != [] {
      var id := cfg.idOf(ContentsOf(batch));
      TxsOfFrame(p.batches.batchTxs, id, TxIds(ContentsOf(batch)), p.batches.dag.processed);
      SameTxs(cfg, w, WithBatch(p, id, batch));
    }
  }

  lemma TxsOfFrame(batchTxs: map<nat, seq<nat>>, b: nat, txs: seq<nat>, ids: set<nat>)
    requires b !in ids
    ensures TxsOf(batchTxs[b := txs], ids) == TxsOf(batchTxs, ids)
  {
    TxsOfSame(batchTxs, batchTxs[b := txs], ids);
    TxsOfSame(batchTxs[b := txs], batchTxs, ids);
  }

  lemma TxsOfSame(m: map<nat, seq<nat>>, m': map<nat, seq<nat>>, ids: set<nat>)
    requires forall b :: b in ids && b in m ==> b in m' && m'[b] == m[b]
    ensures TxsOf(m, ids) <= TxsOf(m', ids)
  {
    forall t | t in TxsOf(m, ids) ensures t in TxsOf(m', ids) {
      var b :| b in ids && b in m && t in m[b];
      assert b in m' && t in m'[b];
    }
  }

  lemma RollbackBatchStep(cfg: Config, w: World, b: nat)
    requires WorldInv(cfg, w) && Allowed(cfg, w, RollbackBatch(b))
    ensures var r := Next(cfg, w, RollbackBatch(b)); r.Some? && WorldInv(cfg, r.value)
  {
    var p := w.pool;
    RollbackBatchKeepsInv(cfg, p, b);
    if b in p.batches.batchTxs {
      RollbackBatchIsExact(cfg, p, b);
      UnprocessedDescendants(p.batches.dag, {b});
      var dropped := Descendants(p.batches.dag.parents, {b});
      assert p.batches.dag.processed - dropped == p.batches.dag.processed;
      TxsOfMinus(p.batches.batchTxs, dropped, p.batches.dag.processed);
      SameTxs(cfg, w, WithoutBatches(p, dropped));
    }
  }

  lemma TxsOfMinus(batchTxs: map<nat, seq<nat>>, gone: set<nat>, ids: set<nat>)
    requires gone !! ids
    ensures TxsOf(batchTxs - gone, ids) == TxsOf(batchTxs, ids)
  {
    TxsOfSame(batchTxs, batchTxs - gone, ids);
    TxsOfSame(batchTxs - gone, batchTxs, ids);
  }

  lemma CommitBatchStep(cfg: Config, w: World, proof: ProvenBatch)
    requires WorldInv(cfg, w) && Allowed(cfg, w, CommitBatch(proof))
    ensures var r := Next(cfg, w, CommitBatch(proof)); r.Some? && WorldInv(cfg, r.value)
  {
    CommitBatchKeepsInv(cfg, w.pool, proof);
    SameTxs(cfg, w, MempoolModel.CommitBatch(w.pool, proof).value);
  }

  lemma StreamStep(cfg: Config, w: World, a: Action)
    requires WorldInv(cfg, w) && (a.Subscribe? || a.Receive? || a.Close?)
    ensures var r := Next(cfg, w, a); r.Some? && WorldInv(cfg, r.value)
  {
    var q := Next(cfg, w, a).value.pool;
    if a.Subscribe? && w.pool.stream.Subscribe(a.tip).Ok? {
      SubscribeSyncs(w.pool.stream, a.tip);
    }
    assert StreamAgrees(q.stream, q.core.log, q.tip);
    Assemble(cfg, q);
    SameTxs(cfg, w, q);
  }

  // ---------------------------------------------------------------------------------------------
  // Admission

  lemma AddStep(cfg: Config, w: World, tx: Tx)
    requires WorldInv(cfg, w) && Allowed(cfg, w, Add(tx))
    ensures var r := Next(cfg, w, Add(tx)); r.Some? && WorldInv(cfg, r.value)
  {
    AddNext(cfg, w, tx);
    hide Inv, Next, Core.Verify, Ids;
    if Next(cfg, w, Add(tx)) != Some(w) {
      AdmittedInv(cfg, w, tx);
    }
  }

  lemma AddNext(cfg: Config, w: World, tx: Tx)
    requires Inv(cfg, w.pool) && Allowed(cfg, w, Add(tx))
    ensures Next(cfg, w, Add(tx)) == Some(w) ||
            (Next(cfg, w, Add(tx)) == Some(Admitted(w, tx)) && Inv(cfg, WithTx(w.pool, tx)) &&
             tx.id !in Elems(w.committed) && tx.id !in w.pool.txs.parents)
  {
    AddOutcome(cfg, w.pool, tx);
    hide Inv, Insertable, Core.Verify, Ids;
  }

  /** The world with one more transaction. */
  ghost function Admitted(w: World, tx: Tx): World {
    w.(pool := WithTx(w.pool, tx), admitted := w.admitted[tx.id := tx],
       parentsOf := w.parentsOf[tx.id := ParentsIn(w.pool.core.log, tx)],
       reverted := w.reverted - {tx.id})
  }

  lemma AdmittedInv(cfg: Config, w: World, tx: Tx)
    requires WorldInv(cfg, w) && tx.id !in Elems(w.committed) && tx.id !in w.pool.txs.parents
    requires Inv(cfg, WithTx(w.pool, tx))
    ensures WorldInv(cfg, Admitted(w, tx))
  {
    AdmittedConserved(w, tx);
    AdmittedEdges(w, tx);
    AdmittedOrder(w, tx);
    AdmittedHistory(w, tx);
  }

  lemma AdmittedHistory(w: World, tx: Tx)
    requires Remembered(w.pool.core.log, w.admitted)
    requires tx.id !in Ids(w.pool.core.log) && tx.id !in Elems(w.committed)
    requires InTime(w.committed, w.height, w.admitted)
    ensures Remembered(w.pool.core.log + [tx], w.admitted[tx.id := tx])
    ensures InTime(w.committed, w.height, w.admitted[tx.id := tx])
  {
    Members(w.pool.core.log, [tx]);
  }

  lemma AdmittedConserved(w: World, tx: Tx)
    requires Conserved(w.admitted.Keys, Ids(w.pool.core.log), Elems(w.committed), w.reverted)
    requires tx.id !in Ids(w.pool.core.log) && tx.id !in Elems(w.committed)
    ensures Conserved(w.admitted[tx.id := tx].Keys, Ids(w.pool.core.log + [tx]),
                      Elems(w.committed), w.reverted - {tx.id})
    ensures w.admitted[tx.id := tx].Keys == w.admitted.Keys + {tx.id}
  {
    Members(w.pool.core.log, [tx]);
    Single(tx);
  }

  lemma AdmittedEdges(w: World, tx: Tx)
    requires EdgesRemain(w.pool.txs.parents, w.parentsOf, Elems(w.committed))
    requires Conserved(w.admitted.Keys, Ids(w.pool.core.log), Elems(w.committed), w.reverted)
    requires tx.id !in Elems(w.committed) && w.admitted.Keys == w.parentsOf.Keys
    requires w.pool.txs.parents.Keys == Ids(w.pool.core.log)
    requires AfterParents(w.committed, w.parentsOf, {})
    ensures var ps := ParentsIn(w.pool.core.log, tx);
      && EdgesRemain(w.pool.txs.parents[tx.id := ps], w.parentsOf[tx.id := ps],
                     Elems(w.committed))
      && AfterParents(w.committed, w.parentsOf[tx.id := ps], {})
  {
    ParentsArePredecessors(w.pool.core.log, tx);
    var ps := ParentsIn(w.pool.core.log, tx);
    assert ps !! Elems(w.committed);
    forall t | t in w.committed ensures t in w.parentsOf && t != tx.id {
      assert t in Elems(w.committed);
    }
    hide Conserved, ParentsIn;
    EdgesPush(w.pool.txs.parents, w.parentsOf, Elems(w.committed), tx.id, ps);
    AfterParentsSame(w.committed, w.parentsOf, w.parentsOf[tx.id := ps], {});
  }

  lemma EdgesPush(edges: Edges, parentsOf: map<nat, set<nat>>, committed: set<nat>, k: nat,
                  ps: set<nat>)
    requires EdgesRemain(edges, parentsOf, committed) && ps !! committed
    ensures EdgesRemain(edges[k := ps], parentsOf[k := ps], committed)
  {
  }

  lemma AdmittedOrder(w: World, tx: Tx)
    requires OrderAgrees(w.pool, w.order) && w.pool.batches.Indexed()
    requires w.pool.batches.txBatch.Keys <= w.pool.txs.parents.Keys
    requires tx.id !in w.pool.txs.parents
    ensures OrderAgrees(WithTx(w.pool, tx), w.order)
  {
    forall t | t in w.order ensures t in w.pool.txs.parents {
      assert t in Elems(w.order);
      assert t in BlockTxs(w.pool);
    }
    AfterParentsSame(w.order, w.pool.txs.parents, WithTx(w.pool, tx).txs.parents, {});
  }

  lemma AfterParentsSame(list: seq<nat>, parents: map<nat, set<nat>>,
                         parents': map<nat, set<nat>>, before: set<nat>)
    requires AfterParents(list, parents, before)
    requires forall t :: t in list ==> t in parents && t in parents' && parents'[t] == parents[t]
    ensures AfterParents(list, parents', before)
  {
  }

  // ---------------------------------------------------------------------------------------------
  // Selecting a block

  /** Concatenating the batches of a block in order lists each transaction once, after its
      parents. */
  lemma {:induction false} BlockListOrdered(e: Edges, s: Batches, batches: seq<ProvenBatch>)
    requires s.WellFormed() && Quotient(e, s) && BlockOrdered(s.dag, batches)
    requires s.dag.processed == {}
    requires forall t :: t in s.txBatch && t in e ==> e[t] <= s.txBatch.Keys
    ensures var list := BlockList(s.batchTxs, batches);
      && NoDup(list) && Elems(list) == TxsOf(s.batchTxs, BatchIdsOf(batches))
      && AfterParents(list, e, {})
    decreases |batches|
  {
    if batches != [] {
      var f, last := batches[..|batches| - 1], batches[|batches| - 1];
      assert batches == f + [last] && last in batches && last !in f;
      BlockOrderedFront(s.dag, f, last);
      BlockListOrdered(e, s, f);
      ExtendBlockList(e, s, f, last);
    }
  }

  lemma BlockOrderedFront(d: Dag<ProvenBatch>, f: seq<ProvenBatch>, last: ProvenBatch)
    requires BlockOrdered(d, f + [last]) && d.processed == {}
    ensures BlockOrdered(d, f)
    ensures last.id in d.vertices && last.id !in BatchIdsOf(f)
    ensures last.id in d.parents && d.parents[last.id] <= BatchIdsOf(f)
    ensures BatchIdsOf(f + [last]) == BatchIdsOf(f) + {last.id}
  {
    var all := f + [last];
    NoDupSplit(f, [last]);
    assert forall x :: x in all <==> x in f || x == last;
    BatchesBefore(d, f, last);
  }

  lemma BatchesBefore(d: Dag<ProvenBatch>, f: seq<ProvenBatch>, last: ProvenBatch)
    requires d.processed == {}
    requires forall p :: p in f + [last] ==> p.id in d.parents
    requires forall i :: 0 <= i < |f + [last]| ==>
      d.parents[(f + [last])[i].id] <= d.processed + BatchIdsOf((f + [last])[..i])
    ensures forall i :: 0 <= i < |f| ==>
      f[i].id in d.parents && d.parents[f[i].id] <= d.processed + BatchIdsOf(f[..i])
    ensures last.id in d.parents && d.parents[last.id] <= BatchIdsOf(f)
  {
    var all := f + [last];
    forall i | 0 <= i < |f| ensures d.parents[f[i].id] <= d.processed + BatchIdsOf(f[..i]) {
      assert all[i] == f[i] && all[..i] == f[..i];
    }
    assert all[|f|] == last && all[..|f|] == f;
  }

  lemma {:induction false} ExtendBlockList(e: Edges, s: Batches, f: seq<ProvenBatch>,
                                           last: ProvenBatch)
    requires s.WellFormed() && Quotient(e, s) && last.id in s.dag.parents
    requires last.id !in BatchIdsOf(f) && s.dag.parents[last.id] <= BatchIdsOf(f)
    requires forall t :: t in s.txBatch && t in e ==> e[t] <= s.txBatch.Keys
    requires var list := BlockList(s.batchTxs, f);
      && NoDup(list) && Elems(list) == TxsOf(s.batchTxs, BatchIdsOf(f))
      && AfterParents(list, e, {})
    ensures var list := BlockList(s.batchTxs, f) + s.batchTxs[last.id];
      && NoDup(list) && Elems(list) == TxsOf(s.batchTxs, BatchIdsOf(f) + {last.id})
      && AfterParents(list, e, {})
  {
    var list, txs := BlockList(s.batchTxs, f), s.batchTxs[last.id];
    forall t | t in list ensures t !in txs {
      assert t in Elems(list);
    }
    NoDupAppend(list, txs);
    assert Elems(list + txs) == Elems(list) + Elems(txs);
    TxsOfPlus(s.batchTxs, BatchIdsOf(f), last.id);
    forall t | t in txs && t in e ensures e[t] <= Elems(list) + Elems(txs) {
      ParentsInBlock(e, s, last.id, BatchIdsOf(f), t);
    }
    AppendAfterParents(list, txs, e);
  }

  lemma TxsOfPlus(batchTxs: map<nat, seq<nat>>, ids: set<nat>, b: nat)
    requires b in batchTxs
    ensures TxsOf(batchTxs, ids + {b}) == TxsOf(batchTxs, ids) + Elems(batchTxs[b])
  {
  }

  lemma ParentsInBlock(e: Edges, s: Batches, b: nat, earlier: set<nat>, t: nat)
    requires s.WellFormed() && Quotient(e, s) && b in s.dag.parents
    requires s.dag.parents[b] <= earlier && t in s.batchTxs[b] && t in e
    requires e[t] <= s.txBatch.Keys
    ensures e[t] <= TxsOf(s.batchTxs, earlier) + Elems(s.batchTxs[b])
  {
    forall q | q in e[t] && q !in s.batchTxs[b] ensures q in TxsOf(s.batchTxs, earlier) {
      assert q in Outside(e, s.batchTxs[b]);
      assert s.txBatch[q] in s.dag.parents[b];
    }
  }

  lemma AppendAfterParents(list: seq<nat>, txs: seq<nat>, e: Edges)
    requires AfterParents(list, e, {}) && ExecutionOrder(e, txs)
    requires forall t :: t in txs && t in e ==> e[t] <= Elems(list) + Elems(txs)
    ensures AfterParents(list + txs, e, {})
  {
    var all := list + txs;
    forall i | 0 <= i < |all| && all[i] in e ensures e[all[i]] <= {} + Elems(all[..i]) {
      if i < |list| {
        assert all[..i] == list[..i] && all[i] == list[i];
      } else {
        var k := i - |list|;
        assert all[..i] == list + txs[..k] && all[i] == txs[k] && txs[k] in txs;
        forall q | q in e[txs[k]] ensures q in Elems(all[..i]) {
          if q !in list {
            assert q in Elems(txs);
            var j :| 0 <= j < |txs| && txs[j] == q;
            assert j < k;
            assert txs[..k][j] == q;
          }
        }
      }
    }
  }

  lemma SelectBlockStep(cfg: Config, w: World)
    requires WorldInv(cfg, w) && Allowed(cfg, w, SelectBlock)
    ensures var r := Next(cfg, w, SelectBlock); r.Some? && WorldInv(cfg, r.value)
  {
    var p := w.pool;
    SelectBlockIsExact(cfg, p);
    SelectBlockKeepsInv(cfg, p);
    var batches := BatchGraphs.SelectBlock(p.batches.dag, cfg.block).batches;
    BlockListOrdered(p.txs.parents, p.batches, batches);
    assert OrderAgrees(WithBlock(p, BatchIdsOf(batches)), BlockList(p.batches.batchTxs, batches));
  }

  // ---------------------------------------------------------------------------------------------
  // Committing and rolling back a block

  lemma CommittedOrder(w: World, done: set<nat>)
    requires OrderAgrees(w.pool, w.order) && done == BlockTxs(w.pool)
    requires NoDup(w.committed) && AfterParents(w.committed, w.parentsOf, {})
    requires EdgesRemain(w.pool.txs.parents, w.parentsOf, Elems(w.committed))
    requires done <= w.pool.txs.parents.Keys && w.pool.txs.parents.Keys !! Elems(w.committed)
    ensures NoDup(w.committed + w.order)
    ensures Elems(w.committed + w.order) == Elems(w.committed) + done
    ensures AfterParents(w.committed + w.order, w.parentsOf, {})
  {
    forall t | t in w.committed ensures t !in w.order {
      assert t in Elems(w.committed);
      assert t !in Elems(w.order);
    }
    NoDupAppend(w.committed, w.order);
    var all := w.committed + w.order;
    forall i | 0 <= i < |all| && all[i] in w.parentsOf
      ensures w.parentsOf[all[i]] <= {} + Elems(all[..i])
    {
      if i < |w.committed| {
        assert all[..i] == w.committed[..i] && all[i] == w.committed[i];
      } else {
        var j := i - |w.committed|;
        assert all[..i] == w.committed + w.order[..j] && all[i] == w.order[j];
        assert w.order[j] in Elems(w.order);
        var e := w.pool.txs.parents[w.order[j]];
        assert e <= {} + Elems(w.order[..j]);
        assert e == w.parentsOf[w.order[j]] - Elems(w.committed);
      }
    }
  }

  lemma CommittedConserved(admitted: set<nat>, pooled: set<nat>, committed: set<nat>,
                           reverted: set<nat>, done: set<nat>, gone: set<nat>)
    requires Conserved(admitted, pooled, committed, reverted)
    requires done <= pooled && gone <= pooled - done
    ensures Conserved(admitted, pooled - done - gone, committed + done, reverted + gone)
  {
  }

  lemma CommittedEdges(e: Edges, parentsOf: map<nat, set<nat>>, committed: set<nat>,
                       done: set<nat>, gone: set<nat>)
    requires EdgesRemain(e, parentsOf, committed)
    ensures EdgesRemain(Shrunk(e, done) - gone, parentsOf, committed + done)
  {
  }

  lemma CommittedHistory(w: World, log': seq<Tx>)
    requires Remembered(w.pool.core.log, w.admitted) && Unexpired(w.pool.core.log, w.pool.tip)
    requires InTime(w.committed, w.height, w.admitted)
    requires Elems(w.order) <= Ids(w.pool.core.log)
    requires forall t :: t in log' ==> t in w.pool.core.log
    ensures Remembered(log', w.admitted)
    ensures InTime(w.committed + w.order,
                   w.height + AtHeight(w.order, w.pool.tip + 1), w.admitted)
  {
    forall id | id in w.order
      ensures id in w.admitted && w.pool.tip + 1 <= w.admitted[id].expiresAt
    {
      assert id in Elems(w.order);
      var t :| t in w.pool.core.log && t.id == id;
    }
  }

  /** The pool after a committed block: pruned, then without what expired. */
  ghost function AfterCommit(cfg: Config, p: Pool): Pool {
    var q := WithoutBlock(cfg, p, p.tip + 1);
    WithoutTxs(q, ExpiredWith(cfg, p), Dropped(q, ExpiredWith(cfg, p)))
  }

  lemma CommitBlockOutcome(cfg: Config, p: Pool)
    requires Inv(cfg, p) && p.block.Some?
    ensures MempoolModel.CommitBlock(cfg, p, p.tip + 1) == Some(AfterCommit(cfg, p))
    ensures Inv(cfg, AfterCommit(cfg, p)) && AfterCommit(cfg, p).block.None?
    ensures BlockTxs(p) <= p.txs.parents.Keys
    ensures ExpiredWith(cfg, p) <= p.txs.parents.Keys - BlockTxs(p)
    ensures AfterCommit(cfg, p).core.log
         == Without(Without(p.core.log, BlockTxs(p)), ExpiredWith(cfg, p))
    ensures AfterCommit(cfg, p).txs.parents
         == Shrunk(p.txs.parents, BlockTxs(p)) - ExpiredWith(cfg, p)
  {
    var q := WithoutBlock(cfg, p, p.tip + 1);
    PruneBlockIsExact(cfg, p, p.tip + 1);
    WithoutBlockAgrees(cfg, p);
    BlockIsAncestorClosed(p.txs, p.batches);
    CommitKeepsLog(p.core, BlockTxs(p), cfg.retain);
    CommitBlockKeepsInv(cfg, p);
    RevertIsExact(cfg, q, ExpiringAt(q, q.tip));
  }

  lemma NothingSelected(cfg: Config, p: Pool)
    requires Inv(cfg, p) && p.block.None?
    ensures OrderAgrees(p, [])
  {
    assert TxsOf(p.batches.batchTxs, {}) == {};
  }

  lemma CommitBlockStep(cfg: Config, w: World)
    requires WorldInv(cfg, w) && Allowed(cfg, w, CommitBlock)
    ensures var r := Next(cfg, w, CommitBlock); r.Some? && WorldInv(cfg, r.value)
  {
    CommitBlockOutcome(cfg, w.pool);
    NextCommit(cfg, w, AfterCommit(cfg, w.pool));
    CommittedInv(cfg, w);
    hide Inv, WorldInv, Next, AfterCommit, MempoolModel.CommitBlock;
  }

  lemma NextCommit(cfg: Config, w: World, q: Pool)
    requires |w.pool.core.blocks| <= w.pool.tip
    requires MempoolModel.CommitBlock(cfg, w.pool, w.pool.tip + 1) == Some(q)
    ensures Next(cfg, w, CommitBlock) == Some(Committed(cfg, w, q))
  {
  }

  lemma CommittedInv(cfg: Config, w: World)
    requires WorldInv(cfg, w) && Inv(cfg, AfterCommit(cfg, w.pool)) && w.pool.block.Some?
    ensures WorldInv(cfg, Committed(cfg, w, AfterCommit(cfg, w.pool)))
  {
    CommittedParts(cfg, w);
  }

  lemma CommittedParts(cfg: Config, w: World)
    requires WorldInv(cfg, w) && w.pool.block.Some?
    ensures History(Committed(cfg, w, AfterCommit(cfg, w.pool)))
  {
    var p := w.pool;
    CommitBlockOutcome(cfg, p);
    NothingSelected(cfg, AfterCommit(cfg, p));
    assert TxsAgree(p.txs, p.core.log) && Unexpired(p.core.log, p.tip);
    hide Inv, History, AfterCommit, ExpiredWith, OrderAgrees, Unexpired;
    HistoryExtends(w, AfterCommit(cfg, p), ExpiredWith(cfg, p));
  }

  /** The block in progress joins the committed transactions and `gone` the reverted ones. */
  lemma {:induction false} HistoryExtends(w: World, q: Pool, gone: set<nat>)
    requires History(w) && OrderAgrees(q, [])
    requires w.pool.txs.parents.Keys == Ids(w.pool.core.log)
    requires BlockTxs(w.pool) <= w.pool.txs.parents.Keys
    requires gone <= w.pool.txs.parents.Keys - BlockTxs(w.pool)
    requires Unexpired(w.pool.core.log, w.pool.tip)
    requires q.core.log == Without(Without(w.pool.core.log, BlockTxs(w.pool)), gone)
    requires q.txs.parents == Shrunk(w.pool.txs.parents, BlockTxs(w.pool)) - gone
    ensures History(Extended(w, q, gone))
  {
    UncommittedYet(w, BlockTxs(w.pool));
    ExtendedParts(w, q, gone);
    hide Conserved, EdgesRemain, AfterParents, Remembered, InTime, Unexpired, BlockTxs, NoDup;
    CommittedOrder(w, BlockTxs(w.pool));
    hide OrderAgrees, Elems, Ids, Without, Shrunk, AtHeight;
  }

  lemma {:induction false} ExtendedParts(w: World, q: Pool, gone: set<nat>)
    requires History(w) && BlockTxs(w.pool) <= w.pool.txs.parents.Keys == Ids(w.pool.core.log)
    requires gone <= w.pool.txs.parents.Keys - BlockTxs(w.pool)
    requires Unexpired(w.pool.core.log, w.pool.tip)
    requires q.core.log == Without(Without(w.pool.core.log, BlockTxs(w.pool)), gone)
    requires q.txs.parents == Shrunk(w.pool.txs.parents, BlockTxs(w.pool)) - gone
    ensures var w' := Extended(w, q, gone);
      var parts :=
        && Conserved(w'.admitted.Keys, Ids(q.core.log), Elems(w'.committed), w'.reverted)
        && EdgesRemain(q.txs.parents, w'.parentsOf, Elems(w'.committed))
        && Remembered(q.core.log, w'.admitted)
        && InTime(w'.committed, w'.height, w'.admitted);
      parts
  {
    var log, done := w.pool.core.log, BlockTxs(w.pool);
    IdsWithout(log, done);
    IdsWithout(Without(log, done), gone);
    UncommittedYet(w, done);
    assert Elems(w.committed + w.order) == Elems(w.committed) + Elems(w.order);
    hide Conserved, EdgesRemain, AfterParents, Remembered, InTime, Unexpired, BlockTxs, NoDup;
    CommittedConserved(w.admitted.Keys, Ids(log), Elems(w.committed), w.reverted, done, gone);
    CommittedEdges(w.pool.txs.parents, w.parentsOf, Elems(w.committed), done, gone);
    CommittedHistory(w, Without(Without(log, done), gone));
    hide Elems, Ids, Without, Shrunk, AtHeight;
  }

  lemma UncommittedYet(w: World, done: set<nat>)
    requires History(w) && w.pool.txs.parents.Keys == Ids(w.pool.core.log)
    requires done == BlockTxs(w.pool)
    ensures w.pool.txs.parents.Keys !! Elems(w.committed) && Elems(w.order) == done
  {
  }

  ghost function AfterRollback(p: Pool): Pool {
    var gone := Descendants(p.txs.parents, BlockTxs(p));
    WithoutTxs(p.(block := None), gone, Dropped(p.(block := None), gone))
  }

  lemma RollbackBlockStep(cfg: Config, w: World)
    requires WorldInv(cfg, w) && Allowed(cfg, w, RollbackBlock)
    ensures var r := Next(cfg, w, RollbackBlock); r.Some? && WorldInv(cfg, r.value)
  {
    var p := w.pool;
    var gone := Descendants(p.txs.parents, BlockTxs(p));
    RollbackBlockOutcome(cfg, p);
    RevertedParts(w, gone);
    NothingSelected(cfg, AfterRollback(p));
    AssembleHistory(w.(pool := AfterRollback(p), order := [], reverted := w.reverted + gone));
  }

  lemma {:induction false} RevertedParts(w: World, gone: set<nat>)
    requires Conserved(w.admitted.Keys, Ids(w.pool.core.log), Elems(w.committed), w.reverted)
    requires EdgesRemain(w.pool.txs.parents, w.parentsOf, Elems(w.committed))
    requires Remembered(w.pool.core.log, w.admitted)
    requires gone <= Ids(w.pool.core.log)
    ensures var log' := Without(w.pool.core.log, gone);
      && Conserved(w.admitted.Keys, Ids(log'), Elems(w.committed), w.reverted + gone)
      && EdgesRemain(w.pool.txs.parents - gone, w.parentsOf, Elems(w.committed))
      && Remembered(log', w.admitted)
  {
    IdsWithout(w.pool.core.log, gone);
  }

  lemma RollbackBlockOutcome(cfg: Config, p: Pool)
    requires Inv(cfg, p) && p.block.Some?
    ensures MempoolModel.RollbackBlock(p) == Some(AfterRollback(p))
    ensures Inv(cfg, AfterRollback(p)) && AfterRollback(p).block.None?
    ensures Descendants(p.txs.parents, BlockTxs(p)) <= p.txs.parents.Keys
  {
    RollbackBlockKeepsInv(cfg, p);
    BlockIsAncestorClosed(p.txs, p.batches);
    RevertIsExact(cfg, p.(block := None), BlockTxs(p));
  }

  // ---------------------------------------------------------------------------------------------
  // Runs

  lemma StepKeepsWorld(cfg: Config, w: World, a: Action)
    requires WorldInv(cfg, w) && Allowed(cfg, w, a)
    ensures Next(cfg, w, a).Some? && WorldInv(cfg, Next(cfg, w, a).value)
  {
    match a
    case Add(tx) => AddStep(cfg, w, tx);
    case SelectBatch => SelectBatchStep(cfg, w);
    case RollbackBatch(b) => RollbackBatchStep(cfg, w, b);
    case CommitBatch(proof) => CommitBatchStep(cfg, w, proof);
    case SelectBlock => SelectBlockStep(cfg, w);
    case CommitBlock => CommitBlockStep(cfg, w);
    case RollbackBlock => RollbackBlockStep(cfg, w);
    case _ => StreamStep(cfg, w, a);
  }

  /** The worlds of a run: the last of `worlds` is reached by the actions, each allowed when it
      happened. A step that panics leads nowhere. */
  ghost predicate Run(cfg: Config, w: World, actions: seq<Action>, w': World)
    decreases |actions|
  {
    if actions == [] then w' == w else
      && |w.pool.core.blocks| <= w.pool.tip
      && Allowed(cfg, w, actions[0])
      && Next(cfg, w, actions[0]).Some?
      && Run(cfg, Next(cfg, w, actions[0]).value, actions[1..], w')
  }

  lemma {:induction false} RunKeepsWorld(cfg: Config, w: World, actions: seq<Action>, w': World)
    requires WorldInv(cfg, w) && Run(cfg, w, actions, w')
    ensures WorldInv(cfg, w')
    decreases |actions|
  {
    if actions != [] {
      StepKeepsWorld(cfg, w, actions[0]);
      RunKeepsWorld(cfg, Next(cfg, w, actions[0]).value, actions[1..], w');
    }
  }

  /** No `expect` and no `assert!` fires in any run that obeys the calling protocol. */
  lemma {:induction false} NoPanic(cfg: Config, tip: nat, actions: seq<Action>, w: World, a: Action)
    requires Injective(cfg.idOf) && Run(cfg, Start(tip), actions, w)
    ensures |w.pool.core.blocks| <= w.pool.tip
    ensures Allowed(cfg, w, a) ==> Next(cfg, w, a).Some?
  {
    StartInv(cfg, tip);
    RunKeepsWorld(cfg, Start(tip), actions, w);
    if Allowed(cfg, w, a) {
      StepKeepsWorld(cfg, w, a);
    }
  }

  /** Whatever batches and blocks fail in between, the chain lists each committed transaction
      once and after everything it depended on when it was admitted. */
  lemma {:induction false} CommitOrder(cfg: Config, tip: nat, actions: seq<Action>, w: World)
    requires Injective(cfg.idOf) && Run(cfg, Start(tip), actions, w)
    ensures NoDup(w.committed)
    ensures forall i :: 0 <= i < |w.committed| ==>
      w.committed[i] in w.parentsOf &&
      w.parentsOf[w.committed[i]] <= Elems(w.committed[..i])
  {
    StartInv(cfg, tip);
    RunKeepsWorld(cfg, Start(tip), actions, w);
    forall i | 0 <= i < |w.committed|
      ensures w.committed[i] in w.parentsOf &&
              w.parentsOf[w.committed[i]] <= Elems(w.committed[..i])
    {
      assert w.committed[i] in Elems(w.committed);
    }
  }

  /** No admitted transaction is lost or duplicated: it is in the pool, committed or reverted. */
  lemma {:induction false} NothingIsLost(cfg: Config, tip: nat, actions: seq<Action>, w: World)
    requires Injective(cfg.idOf) && Run(cfg, Start(tip), actions, w)
    ensures w.admitted.Keys == Ids(w.pool.core.log) + Elems(w.committed) + w.reverted
    ensures Ids(w.pool.core.log) !! Elems(w.committed)
    ensures Ids(w.pool.core.log) !! w.reverted && Elems(w.committed) !! w.reverted
  {
    StartInv(cfg, tip);
    RunKeepsWorld(cfg, Start(tip), actions, w);
  }

  /** No transaction is committed in a block above its expiration height, and nothing in the pool
      expires at or below the tip. */
  lemma {:induction false} NothingExpired(cfg: Config, tip: nat, actions: seq<Action>, w: World)
    requires Injective(cfg.idOf) && Run(cfg, Start(tip), actions, w)
    ensures forall id :: id in w.committed ==>
      id in w.height && id in w.admitted && w.height[id] <= w.admitted[id].expiresAt
    ensures forall t :: t in w.pool.core.log ==> t.expiresAt > w.pool.tip
  {
    StartInv(cfg, tip);
    RunKeepsWorld(cfg, Start(tip), actions, w);
  }

  /** As long as a subscription lives, folding what was sent gives exactly the uncommitted
      transactions in the order they arrived, no matter when the subscriber joined. */
  lemma {:induction false} SubscribersLoseNothing(cfg: Config, tip: nat, actions: seq<Action>,
                                                  w: World)
    requires Injective(cfg.idOf) && Run(cfg, Start(tip), actions, w)
    requires w.pool.stream.channel.Some?
    ensures var known, log := Fold(w.pool.stream.channel.value.sent), w.pool.core.log;
      |known| == |log| && forall i :: 0 <= i < |log| ==>
        known[i] == Added(log[i].id, log[i].nullifiers, log[i].details)
  {
    StartInv(cfg, tip);
    RunKeepsWorld(cfg, Start(tip), actions, w);
  }
}
