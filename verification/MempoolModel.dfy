/** The mempool as a state machine over the meanings of its components. An `expect` or `assert!`
    that would fire is `None`; the theorems show when it cannot. */
module MempoolModel {
  import opened Prelude
  import opened Dags
  import opened Transactions
  import opened InflightCores
  import opened TransactionGraphs
  import opened BatchGraphs
  import opened Quotients
  import opened Subscriptions

  /** `idOf` derives a batch's id from its contents. */
  datatype Config =
    Config(batch: BatchBudget, block: BlockBudget, retain: nat, slack: nat, idOf: BatchIds)

  datatype Pool = Pool(
    tip: nat,
    core: Core,
    txs: Dag<Tx>,
    expiry: map<nat, nat>,
    batches: Batches,
    block: Option<set<nat>>,
    stream: Stream)

  function EventOf(tx: Tx): Event {
    Added(tx.id, tx.nullifiers, tx.details)
  }

  function EventsOf(log: seq<Tx>): seq<Event> {
    seq(|log|, i requires 0 <= i < |log| => EventOf(log[i]))
  }

  function Empty(tip: nat): Pool {
    Pool(tip, Core([], []), Dag(map[], map[], {}), map[],
         Batches(Dag(map[], map[], {}), map[], map[]), None, Stream(None, tip, []))
  }

  // ---------------------------------------------------------------------------------------------
  // The steps

  ghost function AddTransaction(cfg: Config, p: Pool, tx: Tx)
      : Option<(Pool, Result<nat, AddError>)>
    requires |p.core.blocks| <= p.tip
  {
    var v := p.core.Verify(p.tip, cfg.slack, tx);
    if v.Fail? then Some((p, Err(v.error))) else
    if tx.id in EventIds(p.stream.log) then None else
    var t := Insert(p.txs, tx, ParentsIn(p.core.log, tx));
    if t.Err? then None else
    Some((p.(core := p.core.Add(tx),
             stream := p.stream.Publish(EventOf(tx)),
             expiry := p.expiry[tx.id := tx.expiresAt],
             txs := t.value), Ok(p.tip)))
  }

  function ContentsOf(batch: seq<Tx>): Contents {
    seq(|batch|, i requires 0 <= i < |batch| => (batch[i].id, batch[i].account))
  }

  ghost function SelectNextBatch(cfg: Config, p: Pool): Option<(Pool, Option<(nat, seq<Tx>)>)> {
    var s := SelectBatch(p.txs, cfg.batch);
    if s.batch == [] then Some((p.(txs := s.dag), None)) else
    var b := p.batches.Insert(ContentsOf(s.batch), s.parents, cfg.idOf);
    if b.Err? then None else
    Some((p.(txs := s.dag, batches := b.value), Some((cfg.idOf(ContentsOf(s.batch)), s.batch))))
  }

  ghost function RollbackBatch(p: Pool, batch: nat): Option<Pool> {
    if batch !in p.batches.batchTxs then Some(p) else
    var b := p.batches.Remove({batch});
    if b.Err? then None else
    var removed := p.batches.batchTxs.Keys - b.value.batchTxs.Keys;
    var t := p.txs.RevertSubgraphs(TxsOf(p.batches.batchTxs, removed));
    if t.Err? then None else
    Some(p.(txs := t.value, batches := b.value))
  }

  ghost function CommitBatch(p: Pool, batch: ProvenBatch): Option<Pool> {
    if batch.id !in p.batches.batchTxs then Some(p) else
    var b := p.batches.SubmitProof(batch);
    if b.Err? then None else Some(p.(batches := b.value))
  }

  ghost function SelectNextBlock(cfg: Config, p: Pool): Option<(Pool, nat, seq<ProvenBatch>)> {
    if p.block.Some? then None else
    var s := SelectBlock(p.batches.dag, cfg.block);
    Some((p.(batches := p.batches.(dag := s.dag), block := Some(BatchIdsOf(s.batches))),
          p.tip + 1, s.batches))
  }

  ghost function Revert(p: Pool, txs: set<nat>): Option<Pool> {
    var r := p.txs.PurgeSubgraphs(txs);
    if r.Err? then None else
    var gone := Descendants(p.txs.parents, txs);
    var b := p.batches.Remove(p.batches.BatchesOf(gone));
    if b.Err? then None else
    var removed := p.batches.batchTxs.Keys - b.value.batchTxs.Keys;
    var t := r.value.RevertSubgraphs(TxsOf(p.batches.batchTxs, removed) - gone);
    if t.Err? then None else
    Some(p.(txs := t.value, batches := b.value, expiry := p.expiry - gone,
            core := p.core.Revert(gone),
            stream := p.stream.Publish(TransactionsReverted(gone))))
  }

  function ExpiringAt(p: Pool, block: nat): set<nat> {
    set t | t in p.expiry && p.expiry[t] == block
  }

  /** The first half of `commit_block`: everything but the expiry check. `number` is the block
      number in the committed header. */
  ghost function PruneBlock(cfg: Config, p: Pool, number: nat): Option<Pool> {
    if p.block.None? then None else
    var b := p.batches.Prune(p.block.value);
    if b.Err? then None else
    var list := Concat(p.batches.batchTxs, p.block.value);
    var t := p.txs.PruneProcessed(Elems(list));
    if t.Err? then None else
    Some(Pool(p.tip + 1, p.core.Commit(Elems(list), cfg.retain), t.value,
              p.expiry - Elems(list), b.value, None, p.stream.CommitBlock(number, list)))
  }

  ghost function CommitBlock(cfg: Config, p: Pool, number: nat): Option<Pool> {
    var q := PruneBlock(cfg, p, number);
    if q.None? then None else Revert(q.value, ExpiringAt(q.value, q.value.tip))
  }

  ghost function RollbackBlock(p: Pool): Option<Pool> {
    if p.block.None? || !(p.block.value <= p.batches.batchTxs.Keys) then None else
    Revert(p.(block := None), TxsOf(p.batches.batchTxs, p.block.value))
  }

  // ---------------------------------------------------------------------------------------------
  // The invariant

  ghost predicate Injective(idOf: BatchIds) {
    forall c: Contents, c': Contents :: idOf(c) == idOf(c') ==> c == c'
  }

  /** The transaction graph is the dependency graph of the uncommitted list. */
  ghost predicate TxsAgree(txs: Dag<Tx>, log: seq<Tx>) {
    var agree :=
      && txs.WellFormed()
      && txs.parents == EdgesOf(log)
      && VerticesAgree(txs.vertices, log);
    agree
  }

  ghost predicate VerticesAgree(vertices: map<nat, Tx>, log: seq<Tx>) {
    && vertices.Keys == Ids(log)
    && forall t :: t in log ==> vertices[t.id] == t
  }

  ghost predicate ExpiryAgrees(expiry: map<nat, nat>, log: seq<Tx>) {
    var agrees :=
      && expiry.Keys == Ids(log)
      && forall t :: t in log ==> expiry[t.id] == t.expiresAt;
    agrees
  }

  /** The id of a batch is derived from its transactions and their accounts. */
  ghost predicate Derived(idOf: BatchIds, b: nat, txs: seq<nat>, vertices: map<nat, Tx>) {
    exists c: Contents :: Lists(c, txs, vertices) && idOf(c) == b
  }

  predicate Lists(c: Contents, txs: seq<nat>, vertices: map<nat, Tx>) {
    |c| == |txs| && forall i :: 0 <= i < |c| ==>
      txs[i] in vertices && c[i] == (txs[i], vertices[txs[i]].account)
  }

  lemma ListsIds(c: Contents, txs: seq<nat>, vertices: map<nat, Tx>)
    requires Lists(c, txs, vertices)
    ensures TxIds(c) == txs
  {
  }

  /** Transactions in no batch do not matter. */
  lemma DerivedFrame(idOf: BatchIds, m: map<nat, seq<nat>>, vertices: map<nat, Tx>,
                     vertices': map<nat, Tx>)
    requires forall b :: b in m ==> Derived(idOf, b, m[b], vertices)
    requires forall b, t :: b in m && t in m[b] && t in vertices ==>
      t in vertices' && vertices'[t] == vertices[t]
    ensures forall b :: b in m ==> Derived(idOf, b, m[b], vertices')
  {
    forall b | b in m ensures Derived(idOf, b, m[b], vertices') {
      var c: Contents :| Lists(c, m[b], vertices) && idOf(c) == b;
      assert Lists(c, m[b], vertices');
    }
  }

  /** The batch graph is the quotient of the processed part of the transaction graph. */
  ghost predicate Laid(idOf: BatchIds, d: Dag<Tx>, s: Batches) {
    var laid :=
      && s.WellFormed()
      && s.txBatch.Keys == d.processed
      && Quotient(d.parents, s)
      && forall b :: b in s.batchTxs ==> Derived(idOf, b, s.batchTxs[b], d.vertices);
    laid
  }

  ghost predicate StreamAgrees(stream: Stream, log: seq<Tx>, tip: nat) {
    var agrees :=
      && stream.InSync()
      && stream.log == EventsOf(log)
      && stream.tip == tip;
    agrees
  }

  ghost predicate Agrees(cfg: Config, p: Pool) {
    var agrees :=
      && p.core.Consistent(p.tip)
      && TxsAgree(p.txs, p.core.log)
      && ExpiryAgrees(p.expiry, p.core.log)
      && Laid(cfg.idOf, p.txs, p.batches)
      && StreamAgrees(p.stream, p.core.log, p.tip);
    agrees
  }

  /** The selected batches are exactly those of the block in progress. */
  ghost predicate BlockAgrees(block: Option<set<nat>>, selected: set<nat>) {
    selected == if block.Some? then block.value else {}
  }

  ghost predicate Unexpired(log: seq<Tx>, tip: nat) {
    forall t :: t in log ==> t.expiresAt > tip
  }

  ghost predicate Inv(cfg: Config, p: Pool) {
    var holds :=
      && Injective(cfg.idOf)
      && Agrees(cfg, p)
      && BlockAgrees(p.block, p.batches.dag.processed)
      && Unexpired(p.core.log, p.tip);
    holds
  }

  /** The invariant, from its parts. */
  lemma Assemble(cfg: Config, p: Pool)
    requires Injective(cfg.idOf)
    requires p.core.Consistent(p.tip)
    requires TxsAgree(p.txs, p.core.log)
    requires ExpiryAgrees(p.expiry, p.core.log)
    requires Laid(cfg.idOf, p.txs, p.batches)
    requires StreamAgrees(p.stream, p.core.log, p.tip)
    requires BlockAgrees(p.block, p.batches.dag.processed)
    requires Unexpired(p.core.log, p.tip)
    ensures Inv(cfg, p)
  {
  }

  lemma EmptyInv(cfg: Config, tip: nat)
    requires Injective(cfg.idOf)
    ensures Inv(cfg, Empty(tip))
  {
    var p := Empty(tip);
    assert p.core.All() == [];
    assert EventsOf([]) == [];
  }

  // ---------------------------------------------------------------------------------------------
  // Events and transactions

  lemma EventsPush(log: seq<Tx>, t: Tx)
    ensures EventsOf(log + [t]) == EventsOf(log) + [EventOf(t)]
  {
  }

  lemma EventIdsOf(log: seq<Tx>)
    ensures EventIds(EventsOf(log)) == Ids(log)
    ensures forall e :: e in EventsOf(log) ==> e.Added?
  {
    forall t | t in log ensures t.id in EventIds(EventsOf(log)) {
      var i :| 0 <= i < |log| && log[i] == t;
      assert EventsOf(log)[i] == EventOf(t);
    }
  }

  lemma {:induction false} EventsWithout(log: seq<Tx>, gone: set<nat>)
    ensures Drop(EventsOf(log), gone) == EventsOf(Without(log, gone))
    decreases |log|
  {
    if log != [] {
      var f, t := log[..|log| - 1], log[|log| - 1];
      assert log == f + [t];
      EventsPush(f, t);
      DropPush(EventsOf(f), EventOf(t), gone);
      UnfoldSelect(f, t, gone);
      EventsPush(Without(f, gone), t);
      EventsWithout(f, gone);
    }
  }
}
