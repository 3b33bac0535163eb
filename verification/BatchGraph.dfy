/** The graph of batches laid over the transactions, with its two translation maps. */
module BatchGraphs {
  import opened Prelude
  import opened Dags
  import opened DependencyGraphs

  /** Proofs are opaque. */
  datatype ProvenBatch = ProvenBatch(id: nat, proof: nat)

  datatype BatchInsertError =
    | DuplicateTransactions(txs: set<nat>)
    | UnknownParentTransaction(tx: nat)
    | Graph(error: GraphError)

  /** A batch's transactions with their accounts, in execution order. */
  type Contents = seq<(nat, nat)>

  /** How batch ids are derived from contents. */
  type BatchIds = Contents -> nat

  function TxIds(contents: Contents): seq<nat> {
    seq(|contents|, i requires 0 <= i < |contents| => contents[i].0)
  }

  /** The transactions of some batches. */
  function TxsOf(batchTxs: map<nat, seq<nat>>, bs: set<nat>): set<nat> {
    set b, t | b in bs && b in batchTxs && t in batchTxs[b] :: t
  }

  /** The same as a list, by ascending batch id. */
  function Concat(batchTxs: map<nat, seq<nat>>, bs: set<nat>): seq<nat>
    decreases bs
  {
    if bs == {} then [] else
      var b := Min(bs);
      (if b in batchTxs then batchTxs[b] else []) + Concat(batchTxs, bs - {b})
  }

  datatype Batches = Batches(dag: Dag<ProvenBatch>, txBatch: map<nat, nat>,
                             batchTxs: map<nat, seq<nat>>)
  {
    ghost predicate WellFormed() {
      dag.WellFormed() && Indexed()
    }

    /** `txBatch` and `batchTxs` invert each other and range over the nodes of the graph. */
    ghost predicate Indexed() {
      var indexed :=
        && batchTxs.Keys == dag.parents.Keys
        && (forall b, t :: b in batchTxs && t in batchTxs[b] ==> t in txBatch && txBatch[t] == b)
        && (forall t :: t in txBatch ==> txBatch[t] in batchTxs && t in batchTxs[txBatch[t]])
        && (forall b :: b in dag.vertices ==> dag.vertices[b].id == b);
      indexed
    }

    function BatchesOf(txs: set<nat>): set<nat> {
      set t | t in txs && t in txBatch :: txBatch[t]
    }

    function Insert(contents: Contents, parents: set<nat>, idOf: BatchIds)
        : Result<Batches, BatchInsertError>
    {
      var txs := TxIds(contents);
      var duplicates := Elems(txs) * txBatch.Keys;
      var outside := parents - Elems(txs);
      var unknown := outside - txBatch.Keys;
      var id := idOf(contents);
      if duplicates != {} then Err(DuplicateTransactions(duplicates))
      else if unknown != {} then Err(UnknownParentTransaction(Min(unknown)))
      else
        var r := dag.InsertPending(id, BatchesOf(outside));
        if r.Err? then Err(Graph(r.error)) else
        Ok(Batches(r.value, txBatch + (map t | t in Elems(txs) :: id), batchTxs[id := txs]))
    }

    /** The batches outside `gone`. */
    function Without(gone: set<nat>): Batches {
      Batches(dag.Without(gone), txBatch - TxsOf(batchTxs, gone), batchTxs - gone)
    }

    ghost function Remove(ids: set<nat>): Result<Batches, GraphError> {
      var r := dag.PurgeSubgraphs(ids);
      if r.Err? then Err(r.error) else Ok(Without(Descendants(dag.parents, ids)))
    }

    function Prune(ids: set<nat>): Result<Batches, GraphError> {
      var r := dag.PruneProcessed(ids);
      if r.Err? then Err(r.error) else
      Ok(Batches(r.value, txBatch - TxsOf(batchTxs, ids), batchTxs - ids))
    }

    function SubmitProof(batch: ProvenBatch): Result<Batches, GraphError> {
      var r := dag.PromotePending(batch.id, batch);
      if r.Err? then Err(r.error) else Ok(this.(dag := r.value))
    }
  }

  datatype BlockSelection = BlockSelection(dag: Dag<ProvenBatch>, batches: seq<ProvenBatch>)

  /** How many batches fit into a block. */
  datatype BlockBudget = BlockBudget(batches: nat) {
    predicate Fits(batch: ProvenBatch) {
      batches != 0
    }

    function Subtract(batch: ProvenBatch): BlockBudget
      requires Fits(batch)
    {
      BlockBudget(batches - 1)
    }
  }

  /** Takes the least ready batch as long as the budget lasts. */
  ghost function SelectBlock(d: Dag<ProvenBatch>, budget: BlockBudget): BlockSelection
    decreases budget.batches
  {
    if d.Roots() == {} then BlockSelection(d, []) else
      var root := Min(d.Roots());
      var batch := d.vertices[root];
      if !budget.Fits(batch) then BlockSelection(d, []) else
      var rest := SelectBlock(Process(d, root), budget.Subtract(batch));
      BlockSelection(rest.dag, [d.vertices[root]] + rest.batches)
  }

  // ---------------------------------------------------------------------------------------------
  // Every operation keeps the two maps inverse.

  lemma InsertKeepsBatches(s: Batches, contents: Contents, parents: set<nat>, idOf: BatchIds)
    requires s.Indexed() && s.Insert(contents, parents, idOf).Ok?
    ensures s.Insert(contents, parents, idOf).value.Indexed()
  {
    var txs := TxIds(contents);
    IntersectionEmpty(Elems(txs), s.txBatch.Keys);
  }

  lemma TxsOfDisjoint(s: Batches, gone: set<nat>)
    requires s.Indexed() && gone <= s.batchTxs.Keys
    ensures forall t :: t in s.txBatch ==> (t in TxsOf(s.batchTxs, gone) <==> s.txBatch[t] in gone)
  {
  }

  lemma WithoutKeepsBatches(s: Batches, gone: set<nat>, d: Dag<ProvenBatch>)
    requires s.Indexed() && gone <= s.batchTxs.Keys
    requires d.parents.Keys == s.dag.parents.Keys - gone
    requires d.vertices == s.dag.vertices - gone
    ensures Batches(d, s.txBatch - TxsOf(s.batchTxs, gone), s.batchTxs - gone).Indexed()
  {
    TxsOfDisjoint(s, gone);
  }

  lemma {:induction false} RemoveKeepsBatches(s: Batches, ids: set<nat>)
    requires s.Indexed() && s.Remove(ids).Ok?
    ensures s.Remove(ids).value.Indexed()
    ensures Descendants(s.dag.parents, ids) <= s.batchTxs.Keys
  {
    var gone := Descendants(s.dag.parents, ids);
    WithoutKeepsBatches(s, gone, s.dag.Without(gone));
  }

  lemma PruneKeepsBatches(s: Batches, ids: set<nat>)
    requires s.Indexed() && s.Prune(ids).Ok?
    ensures s.Prune(ids).value.Indexed()
  {
    WithoutKeepsBatches(s, ids, s.dag.PruneProcessed(ids).value);
  }

  lemma ProcessKeepsIndexed(s: Batches, root: nat)
    requires s.Indexed()
    ensures s.(dag := Process(s.dag, root)).Indexed()
  {
  }

  lemma SubmitKeepsBatches(s: Batches, batch: ProvenBatch)
    requires s.Indexed() && s.SubmitProof(batch).Ok?
    ensures s.SubmitProof(batch).value.Indexed()
  {
  }

  /** The transactions of the removed batches. */
  lemma TxsOfRemoved(m: map<nat, seq<nat>>, kept: set<nat>)
    ensures TxsOf(m - kept, (m - kept).Keys) == TxsOf(m, m.Keys - kept)
  {
    var rest := m - kept;
    assert rest.Keys == m.Keys - kept;
    forall b | b in rest ensures rest[b] == m[b] {
    }
  }

  /** The concatenation lists each transaction of the batches once. */
  lemma {:induction false} ConcatLists(s: Batches, ids: set<nat>)
    requires s.Indexed() && ids <= s.batchTxs.Keys
    requires forall b :: b in ids ==> NoDup(s.batchTxs[b])
    ensures Elems(Concat(s.batchTxs, ids)) == TxsOf(s.batchTxs, ids)
    ensures NoDup(Concat(s.batchTxs, ids))
    decreases ids
  {
    if ids != {} {
      var b := Min(ids);
      var rest := ids - {b};
      ConcatLists(s, rest);
      assert Concat(s.batchTxs, ids) == s.batchTxs[b] + Concat(s.batchTxs, rest);
      forall t | t in Concat(s.batchTxs, rest) ensures t !in s.batchTxs[b] {
        assert t in Elems(Concat(s.batchTxs, rest));
        assert s.txBatch[t] in rest;
      }
      NoDupAppend(s.batchTxs[b], Concat(s.batchTxs, rest));
      assert TxsOf(s.batchTxs, ids) == Elems(s.batchTxs[b]) + TxsOf(s.batchTxs, rest);
    }
  }

  // ---------------------------------------------------------------------------------------------
  // Block selection

  function BatchIdsOf(batches: seq<ProvenBatch>): set<nat> {
    set p | p in batches :: p.id
  }

  /** Proven, unselected and distinct batches, each after those of its parents that were not
      selected before. */
  ghost predicate BlockOrdered(d: Dag<ProvenBatch>, batches: seq<ProvenBatch>) {
    var ordered :=
      && NoDup(batches)
      && (forall p :: p in batches ==>
            && p.id in d.vertices && p.id in d.parents
            && d.vertices[p.id] == p && p.id !in d.processed)
      && (forall i :: 0 <= i < |batches| ==>
            d.parents[batches[i].id] <= d.processed + BatchIdsOf(batches[..i]));
    ordered
  }

  lemma BlockOrderedCons(d: Dag<ProvenBatch>, root: nat, rest: seq<ProvenBatch>)
    requires d.WellFormed() && root in d.Roots() && d.vertices[root].id == root
    requires BlockOrdered(Process(d, root), rest)
    ensures BlockOrdered(d, [d.vertices[root]] + rest)
    ensures BatchIdsOf([d.vertices[root]] + rest) == {root} + BatchIdsOf(rest)
  {
    var p := d.vertices[root];
    var all := [p] + rest;
    NoDupAppend([p], rest);
    assert forall x :: x in all <==> x == p || x in rest;
    forall i | 0 <= i < |all|
      ensures d.parents[all[i].id] <= d.processed + BatchIdsOf(all[..i])
    {
      if i > 0 {
        assert all[..i] == [p] + rest[..i - 1];
        assert BatchIdsOf(all[..i]) == {root} + BatchIdsOf(rest[..i - 1]);
        assert all[i] == rest[i - 1];
      }
    }
  }

  /** A selected block lists proven batches in dependency order. */
  lemma {:induction false} BlockIsOrdered(d: Dag<ProvenBatch>, budget: BlockBudget)
    requires d.WellFormed() && forall b :: b in d.vertices ==> d.vertices[b].id == b
    ensures var s := SelectBlock(d, budget);
      && s.dag == d.(processed := d.processed + BatchIdsOf(s.batches)) && s.dag.WellFormed()
      && BlockOrdered(d, s.batches)
    decreases budget.batches
  {
    if d.Roots() != {} {
      var root := Min(d.Roots());
      var batch := d.vertices[root];
      if budget.Fits(batch) {
        var next := Process(d, root);
        ProcessKeepsWellFormed(d, root);
        BlockIsOrdered(next, budget.Subtract(batch));
        BlockOrderedCons(d, root, SelectBlock(next, budget.Subtract(batch)).batches);
      }
    }
  }

  /** Proven, not selected, and with all its parents selected. */
  predicate Ready(d: Dag<ProvenBatch>, processed: set<nat>, k: nat) {
    k in d.vertices && k in d.parents && k !in processed && d.parents[k] <= processed
  }

  lemma IdsCons(batch: ProvenBatch, rest: seq<ProvenBatch>)
    ensures BatchIdsOf([batch] + rest) == {batch.id} + BatchIdsOf(rest)
  {
    var all := [batch] + rest;
    assert forall x :: x in all <==> x == batch || x in rest;
  }

  /** Each batch that is selected is the least one that is ready by then. */
  lemma {:induction false} BlockTakesLeast(d: Dag<ProvenBatch>, budget: BlockBudget, i: nat, k: nat)
    requires d.WellFormed() && forall b :: b in d.vertices ==> d.vertices[b].id == b
    requires i < |SelectBlock(d, budget).batches|
    ensures var batches := SelectBlock(d, budget).batches;
      Ready(d, d.processed + BatchIdsOf(batches[..i]), k) ==> batches[i].id <= k
    decreases budget.batches
  {
    var root := Min(d.Roots());
    var batch, next := d.vertices[root], Process(d, root);
    var rest := SelectBlock(next, budget.Subtract(batch)).batches;
    if i == 0 {
      assert ([batch] + rest)[..0] == [];
      assert d.processed + BatchIdsOf([]) == d.processed;
      assert Ready(d, d.processed, k) ==> k in d.Roots();
    } else {
      ProcessKeepsWellFormed(d, root);
      BlockTakesLeast(next, budget.Subtract(batch), i - 1, k);
      assert ([batch] + rest)[..i] == [batch] + rest[..i - 1];
      IdsCons(batch, rest[..i - 1]);
      assert next.processed + BatchIdsOf(rest[..i - 1]) ==
             d.processed + BatchIdsOf([batch] + rest[..i - 1]);
    }
  }

  /** It stays within the budget, and short of it only when no batch is ready. */
  lemma {:induction false} BlockFillsBudget(d: Dag<ProvenBatch>, budget: BlockBudget)
    ensures var s := SelectBlock(d, budget);
      && |s.batches| <= budget.batches
      && (|s.batches| < budget.batches ==> s.dag.Roots() == {})
    decreases budget.batches
  {
    if d.Roots() != {} {
      var root := Min(d.Roots());
      var batch := d.vertices[root];
      if budget.Fits(batch) {
        BlockFillsBudget(Process(d, root), budget.Subtract(batch));
      }
    }
  }

  /** A selection that continues one already under way. */
  function Continue(batches: seq<ProvenBatch>, s: BlockSelection): BlockSelection {
    BlockSelection(s.dag, batches + s.batches)
  }

  lemma {:induction false} SelectBlockOne(d: Dag<ProvenBatch>, budget: BlockBudget,
                                          batches: seq<ProvenBatch>)
    requires d.Roots() != {} && budget.Fits(d.vertices[Min(d.Roots())])
    ensures var root := Min(d.Roots());
      Continue(batches, SelectBlock(d, budget)) ==
      Continue(batches + [d.vertices[root]],
               SelectBlock(Process(d, root), budget.Subtract(d.vertices[root])))
  {
    var root := Min(d.Roots());
    var rest := SelectBlock(Process(d, root), budget.Subtract(d.vertices[root]));
    assert batches + ([d.vertices[root]] + rest.batches)
        == batches + [d.vertices[root]] + rest.batches;
  }

  class BatchGraph {
    const inner: DependencyGraph<ProvenBatch>
    const idOf: BatchIds
    var transactions: map<nat, nat>
    var batches: map<nat, seq<nat>>

    ghost function Model(): Batches
      reads this, inner
    {
      Batches(inner.Model(), transactions, batches)
    }

    ghost predicate Valid()
      reads this, inner
    {
      var valid :=
        inner.Valid() && Model().Indexed();
      valid
    }

    constructor (idOf: BatchIds)
      ensures fresh(inner)
      ensures Valid()
      ensures Model() == Batches(Dag(map[], map[], {}), map[], map[])
      ensures this.idOf == idOf
    {
      inner := new DependencyGraph();
      this.idOf := idOf;
      transactions, batches := map[], map[];
    }

    method Insert(contents: Contents, parents: set<nat>)
        returns (r: Result<nat, BatchInsertError>)
      requires Valid()
      modifies this, inner
      ensures Valid()
      ensures Model() == old(Model()).Insert(contents, parents, idOf).Else(old(Model()))
      ensures r == var s := old(Model()).Insert(contents, parents, idOf);
                   if s.Ok? then Ok(idOf(contents)) else Err(s.error)
    {
      ghost var before := Model();
      var txs := TxIds(contents);
      var duplicates := set t | t in txs && t in transactions;
      assert duplicates == Elems(txs) * transactions.Keys;
      if duplicates != {} {
        return Err(DuplicateTransactions(duplicates));
      }
      // Allow for parent transactions within this batch.
      var outside := parents - Elems(txs);
      var unknown := outside - transactions.Keys;
      if unknown != {} {
        return Err(UnknownParentTransaction(Min(unknown)));
      }
      var parentBatches := set t | t in outside && t in transactions :: transactions[t];
      var id := idOf(contents);
      var inserted := inner.InsertPending(id, parentBatches);
      if inserted.Fail? {
        return Err(Graph(inserted.error));
      }
      InsertKeepsBatches(before, contents, parents, idOf);
      transactions := transactions + (map t | t in Elems(txs) :: id);
      batches := batches[id := txs];
      r := Ok(id);
    }

    /** Removes the batches and their descendants, returning them with their transactions. */
    method RemoveBatches(ids: set<nat>) returns (r: Result<map<nat, seq<nat>>, GraphError>)
      requires Valid()
      modifies this, inner
      ensures Valid()
      ensures Model() == old(Model()).Remove(ids).Else(old(Model()))
      ensures r == var s := old(Model()).Remove(ids);
                   if s.Err? then Err(s.error) else
                   Ok(old(batches) - s.value.batchTxs.Keys)
    {
      ghost var before := Model();
      var purged := inner.PurgeSubgraphs(ids);
      if purged.Err? {
        return Err(purged.error);
      }
      RemoveKeepsBatches(before, ids);
      var removed := Forget(purged.value);
      r := Ok(removed);
    }

    /** Takes the batches and their transactions out of the maps. */
    method Forget(gone: set<nat>) returns (removed: map<nat, seq<nat>>)
      requires gone <= batches.Keys  // "batch should be removed"
      modifies `batches, `transactions
      ensures batches == old(batches) - gone
      ensures transactions == old(transactions) - TxsOf(old(batches), gone)
      ensures removed == old(batches) - batches.Keys
    {
      ghost var before := batches;
      removed := map b | b in gone :: batches[b];
      var txs := set b, t | b in removed && t in removed[b] :: t;
      forall b | b in gone ensures b in removed && b in before && removed[b] == before[b] {
      }
      assert txs == TxsOf(before, gone);
      batches := batches - gone;
      transactions := transactions - txs;
    }

    /** Removes the batches that contain any of the transactions, and their descendants. */
    method RemoveBatchesWithTransactions(txs: set<nat>) returns (removed: map<nat, seq<nat>>)
      requires Valid()
      modifies this, inner
      ensures Valid()
      ensures var before := old(Model());
        && before.Remove(before.BatchesOf(txs)).Ok?
        && Model() == before.Remove(before.BatchesOf(txs)).value
      ensures removed == old(batches) - batches.Keys
    {
      ghost var before := Model();
      var ids := set t | t in txs && t in transactions :: transactions[t];
      assert ids == before.BatchesOf(txs) && ids <= inner.parents.Keys;
      var r := RemoveBatches(ids);
      assert r.Ok?;  // "batches must exist as they have been taken from internal map"
      removed := r.value;
    }

    /** Removes committed batches, returning their transactions by ascending batch id. */
    method PruneCommitted(ids: set<nat>) returns (r: Result<seq<nat>, GraphError>)
      requires Valid()
      modifies this, inner
      ensures Valid()
      ensures Model() == old(Model()).Prune(ids).Else(old(Model()))
      ensures r == var s := old(Model()).Prune(ids);
                   if s.Ok? then Ok(Concat(old(batches), ids)) else Err(s.error)
    {
      ghost var before := Model();
      var pruned := inner.PruneProcessed(ids);
      if pruned.Err? {
        return Err(pruned.error);
      }
      PruneKeepsBatches(before, ids);
      var txs := Collect(ids);
      r := Ok(txs);
    }

    /** Takes the batches out of the maps, listing their transactions. */
    method Collect(ids: set<nat>) returns (txs: seq<nat>)
      modifies `batches, `transactions
      ensures batches == old(batches) - ids
      ensures transactions == old(transactions) - TxsOf(old(batches), ids)
      ensures txs == Concat(old(batches), ids)
    {
      txs := [];
      ghost var before := batches;
      var todo := ids;
      while todo != {}
        invariant todo <= ids
        invariant batches == old(batches) - (ids - todo)
        invariant transactions == old(transactions)
        invariant Concat(before, ids) == txs + Concat(before, todo)
        invariant Elems(txs) == TxsOf(before, ids - todo)
        decreases todo
      {
        var b := Min(todo);
        ghost var next := todo - {b};
        assert ids - next == (ids - todo) + {b};
        if b in batches {
          assert TxsOf(before, ids - next) == TxsOf(before, ids - todo) + Elems(batches[b]);
          txs := txs + batches[b];
          batches := batches - {b};
        } else {
          assert TxsOf(before, ids - next) == TxsOf(before, ids - todo);
        }
        todo := todo - {b};
      }
      assert ids - todo == ids;
      transactions := transactions - Elems(txs);
    }

    /** Promotes a batch from pending to ready. */
    method SubmitProof(batch: ProvenBatch) returns (r: Outcome<GraphError>)
      requires Valid()
      modifies inner
      ensures Valid()
      ensures Model() == old(Model()).SubmitProof(batch).Else(old(Model()))
      ensures r == old(Model()).SubmitProof(batch).Report()
    {
      ghost var before := Model();
      r := inner.PromotePending(batch.id, batch);
      if r.Pass? {
        SubmitKeepsBatches(before, batch);
      }
    }

    /** Selects the next batches ready for inclusion in a block. */
    method Select(budget: BlockBudget) returns (selected: seq<ProvenBatch>)
      requires Valid()
      modifies inner
      ensures Valid()
      ensures SelectBlock(old(inner.Model()), budget) == BlockSelection(inner.Model(), selected)
    {
      selected := [];
      var left := budget;
      while inner.roots != {}
        invariant Valid()
        invariant inner.vertices == old(inner.vertices)
        invariant SelectBlock(old(inner.Model()), budget)
          == Continue(selected, SelectBlock(inner.Model(), left))
        decreases inner.vertices.Keys - inner.processed
      {
        var id := Min(inner.roots);
        var batch := inner.vertices[id];
        if !left.Fits(batch) {
          break;
        }
        SelectBlockOne(inner.Model(), left, selected);
        left := left.Subtract(batch);
        Take(id);
        selected := selected + [batch];
      }
    }

    method Take(root: nat)
      requires Valid() && root in inner.roots
      modifies inner
      ensures Valid()
      ensures inner.Model() == Process(old(inner.Model()), root)
      ensures root in old(inner.vertices.Keys - inner.processed)
    {
      ghost var before := Model();
      ProcessKeepsWellFormed(before.dag, root);
      ProcessKeepsIndexed(before, root);
      var r := inner.ProcessRoot(root);
      assert r.Pass?;  // "root should be processed"
    }

    predicate Contains(id: nat)
      reads this
    {
      id in batches
    }
  }
}
