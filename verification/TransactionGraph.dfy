/** Batch selection over the transaction dependency graph. */
module TransactionGraphs {
  import opened Prelude
  import opened Dags
  import opened DependencyGraphs
  import opened Transactions

  /** How much fits into a batch, in each of four respects. */
  datatype BatchBudget =
    BatchBudget(transactions: nat, inputNotes: nat, outputNotes: nat, accounts: nat)
  {
    predicate Fits(tx: Tx) {
      && transactions != 0
      && accounts >= 1
      && inputNotes >= |tx.nullifiers|
      && outputNotes >= |tx.outputs|
    }

    function Subtract(tx: Tx): BatchBudget
      requires Fits(tx)
    {
      BatchBudget(transactions - 1, inputNotes - |tx.nullifiers|, outputNotes - |tx.outputs|,
                  accounts - 1)
    }
  }

  /** Every node is stored under its transaction's id. */
  ghost predicate Keyed(d: Dag<Tx>) {
    forall k :: k in d.vertices ==> d.vertices[k].id == k
  }

  ghost function Insert(d: Dag<Tx>, tx: Tx, parents: set<nat>): Result<Dag<Tx>, GraphError> {
    var r := d.InsertPending(tx.id, parents);
    if r.Ok? then r.value.PromotePending(tx.id, tx) else r
  }

  datatype Selection = Selection(dag: Dag<Tx>, batch: seq<Tx>, parents: set<nat>)

  /** Takes the least root as long as it fits. */
  ghost function SelectBatch(d: Dag<Tx>, budget: BatchBudget): Selection
    decreases d.vertices.Keys - d.processed
  {
    if d.Roots() == {} then Selection(d, [], {}) else
      var root := Min(d.Roots());
      var tx := d.vertices[root];
      if !budget.Fits(tx) then Selection(d, [], {}) else
        var next := Process(d, root);
        assert root in d.vertices.Keys - d.processed;
        var rest := SelectBatch(next, budget.Subtract(tx));
        Selection(rest.dag, [tx] + rest.batch, d.parents[root] + rest.parents)
  }

  // ---------------------------------------------------------------------------------------------
  // What a selection is

  /** The members of a selection: promoted, unprocessed and distinct, each after those of its
      parents that are in the batch, the others having been processed before. */
  ghost predicate Ordered(d: Dag<Tx>, batch: seq<Tx>) {
    var ordered :=
      && NoDup(batch)
      && (forall t :: t in batch ==>
            && t.id in d.vertices && t.id in d.parents
            && d.vertices[t.id] == t && t.id !in d.processed)
      && (forall i :: 0 <= i < |batch| ==>
            d.parents[batch[i].id] <= d.processed + Ids(batch[..i]));
    ordered
  }

  lemma OrderedCons(d: Dag<Tx>, root: nat, rest: seq<Tx>)
    requires d.WellFormed() && Keyed(d) && root in d.Roots()
    requires Ordered(Process(d, root), rest)
    ensures Ordered(d, [d.vertices[root]] + rest)
    ensures Ids([d.vertices[root]] + rest) == {root} + Ids(rest)
  {
    var tx := d.vertices[root];
    var batch := [tx] + rest;
    Members([tx], rest);
    Single(tx);
    NoDupAppend([tx], rest);
    forall i | 0 <= i < |batch|
      ensures d.parents[batch[i].id] <= d.processed + Ids(batch[..i])
    {
      if i > 0 {
        assert batch[..i] == [tx] + rest[..i - 1];
        Members([tx], rest[..i - 1]);
      }
    }
  }

  /** A selection marks exactly its members as processed, and they are in execution order. */
  lemma {:induction false} SelectionIsOrdered(d: Dag<Tx>, budget: BatchBudget)
    requires d.WellFormed() && Keyed(d)
    ensures var s := SelectBatch(d, budget);
      && s.dag == d.(processed := d.processed + Ids(s.batch)) && s.dag.WellFormed()
      && Ordered(d, s.batch)
    decreases d.vertices.Keys - d.processed
  {
    if d.Roots() != {} {
      var root := Min(d.Roots());
      var tx := d.vertices[root];
      if budget.Fits(tx) {
        var next := Process(d, root);
        ProcessKeepsWellFormed(d, root);
        SelectionIsOrdered(next, budget.Subtract(tx));
        OrderedCons(d, root, SelectBatch(next, budget.Subtract(tx)).batch);
      }
    }
  }

  /** The union of the members' direct parents, whether inside the batch or not. */
  lemma {:induction false} SelectionParents(d: Dag<Tx>, budget: BatchBudget)
    requires d.WellFormed() && Keyed(d)
    ensures var s := SelectBatch(d, budget); s.parents == d.ParentsOfAll(Ids(s.batch))
    decreases d.vertices.Keys - d.processed
  {
    if d.Roots() != {} {
      var root := Min(d.Roots());
      var tx := d.vertices[root];
      if budget.Fits(tx) {
        var next := Process(d, root);
        ProcessKeepsWellFormed(d, root);
        SelectionParents(next, budget.Subtract(tx));
        var rest := SelectBatch(next, budget.Subtract(tx)).batch;
        Members([tx], rest);
        Single(tx);
        assert d.ParentsOfAll(Ids([tx] + rest)) == d.parents[root] + d.ParentsOfAll(Ids(rest));
      }
    }
  }

  function InputNotes(batch: seq<Tx>): nat {
    if batch == [] then 0 else |batch[0].nullifiers| + InputNotes(batch[1..])
  }

  function OutputNotes(batch: seq<Tx>): nat {
    if batch == [] then 0 else |batch[0].outputs| + OutputNotes(batch[1..])
  }

  /** The totals stay within the budget, and selection stops only when nothing is ready or the
      least ready transaction does not fit in what is left. */
  lemma {:induction false} SelectionFillsBudget(d: Dag<Tx>, budget: BatchBudget)
    requires d.WellFormed() && Keyed(d)
    ensures var s := SelectBatch(d, budget);
      && |s.batch| <= budget.transactions && |s.batch| <= budget.accounts
      && InputNotes(s.batch) <= budget.inputNotes
      && OutputNotes(s.batch) <= budget.outputNotes
      && (s.dag.Roots() != {} ==>
            var left := BatchBudget(budget.transactions - |s.batch|,
                                    budget.inputNotes - InputNotes(s.batch),
                                    budget.outputNotes - OutputNotes(s.batch),
                                    budget.accounts - |s.batch|);
            !left.Fits(s.dag.vertices[Min(s.dag.Roots())]))
    decreases d.vertices.Keys - d.processed
  {
    if d.Roots() != {} {
      var root := Min(d.Roots());
      var tx := d.vertices[root];
      if budget.Fits(tx) {
        var next := Process(d, root);
        ProcessKeepsWellFormed(d, root);
        SelectionFillsBudget(next, budget.Subtract(tx));
        var rest := SelectBatch(next, budget.Subtract(tx)).batch;
        assert ([tx] + rest)[1..] == rest;
      }
    }
  }

  /** Promoted, not processed, and with all its parents processed. */
  predicate Ready(d: Dag<Tx>, processed: set<nat>, k: nat) {
    k in d.vertices && k in d.parents && k !in processed && d.parents[k] <= processed
  }

  /** Each transaction that is selected is the least one that is ready by then. */
  lemma {:induction false} SelectionTakesLeast(d: Dag<Tx>, budget: BatchBudget, i: nat, k: nat)
    requires d.WellFormed() && Keyed(d) && i < |SelectBatch(d, budget).batch|
    ensures var batch := SelectBatch(d, budget).batch;
      Ready(d, d.processed + Ids(batch[..i]), k) ==> batch[i].id <= k
    decreases d.vertices.Keys - d.processed
  {
    var root := Min(d.Roots());
    var tx, next := d.vertices[root], Process(d, root);
    var rest := SelectBatch(next, budget.Subtract(tx)).batch;
    if i == 0 {
      assert ([tx] + rest)[..0] == [];
      assert d.processed + Ids([]) == d.processed;
      assert Ready(d, d.processed, k) ==> k in d.Roots();
    } else {
      ProcessKeepsWellFormed(d, root);
      SelectionTakesLeast(next, budget.Subtract(tx), i - 1, k);
      Members([tx], rest[..i - 1]);
      Single(tx);
      assert ([tx] + rest)[..i] == [tx] + rest[..i - 1];
      assert next.processed + Ids(rest[..i - 1]) == d.processed + Ids([tx] + rest[..i - 1]);
    }
  }

  /** What a transaction takes from a budget of notes. */
  function NotesOf(tx: Tx, inputs: bool): nat {
    if inputs then |tx.nullifiers| else |tx.outputs|
  }

  function Total(vertices: map<nat, Tx>, ids: set<nat>, inputs: bool): nat
    requires ids <= vertices.Keys
    decreases ids
  {
    if ids == {} then 0 else
      var k := Min(ids);
      NotesOf(vertices[k], inputs) + Total(vertices, ids - {k}, inputs)
  }

  lemma {:induction false} TotalSplit(vertices: map<nat, Tx>, ids: set<nat>, k: nat,
                                      inputs: bool)
    requires k in ids && ids <= vertices.Keys
    ensures Total(vertices, ids, inputs) ==
            NotesOf(vertices[k], inputs) + Total(vertices, ids - {k}, inputs)
    decreases ids
  {
    var m := Min(ids);
    if k != m {
      TotalSplit(vertices, ids - {m}, k, inputs);
      LeastIsMin(ids - {k}, m);
      assert ids - {k} - {m} == ids - {m} - {k};
    }
  }

  /** The budget has room for all promoted transactions that are not processed. */
  ghost predicate RoomForAll(d: Dag<Tx>, budget: BatchBudget) {
    var left := d.vertices.Keys - d.processed;
    && budget.transactions >= |left| && budget.accounts >= |left|
    && budget.inputNotes >= Total(d.vertices, left, true)
    && budget.outputNotes >= Total(d.vertices, left, false)
  }

  lemma {:induction false} RoomForRest(d: Dag<Tx>, budget: BatchBudget, root: nat)
    requires RoomForAll(d, budget) && root in d.Roots()
    ensures budget.Fits(d.vertices[root])
    ensures RoomForAll(Process(d, root), budget.Subtract(d.vertices[root]))
  {
    var left := d.vertices.Keys - d.processed;
    TotalSplit(d.vertices, left, root, true);
    TotalSplit(d.vertices, left, root, false);
    assert Process(d, root).vertices.Keys - Process(d, root).processed == left - {root};
  }

  lemma {:induction false} SelectsAllReady(d: Dag<Tx>, budget: BatchBudget)
    requires d.WellFormed() && Keyed(d) && RoomForAll(d, budget)
    ensures SelectBatch(d, budget).dag.Roots() == {}
    decreases d.vertices.Keys - d.processed
  {
    if d.Roots() != {} {
      var root := Min(d.Roots());
      RoomForRest(d, budget, root);
      ProcessKeepsWellFormed(d, root);
      SelectsAllReady(Process(d, root), budget.Subtract(d.vertices[root]));
    }
  }

  /** With room for everything, everything is selected that does not wait, directly or through
      others, for a pending node. */
  lemma {:induction false} SelectionIsComplete(d: Dag<Tx>, budget: BatchBudget)
    requires d.WellFormed() && Keyed(d) && RoomForAll(d, budget)
    ensures SelectBatch(d, budget).dag.processed ==
            d.vertices.Keys - Descendants(d.parents, d.Pending())
  {
    SelectionIsOrdered(d, budget);
    SelectsAllReady(d, budget);
    var s := SelectBatch(d, budget).dag;
    assert s.parents == d.parents && s.vertices == d.vertices && s.Pending() == d.Pending();
    ReadyUnlessBlocked(s);
    ProcessedIsUnblocked(s);
    DifferenceEmpty(s.vertices.Keys - s.processed, Descendants(s.parents, s.Pending()));
  }

  lemma {:induction false} ProcessedIsUnblocked(d: Dag<Tx>)
    requires d.WellFormed()
    ensures d.processed !! Descendants(d.parents, d.Pending())
    ensures d.processed <= d.vertices.Keys
  {
    var t := Descendants(d.parents, d.Pending()) - d.processed;
    assert Closed(d.parents, t);
    DescendantsLeast(d.parents, d.Pending(), t);
  }

  /** A selection that continues one already under way. */
  function Continue(batch: seq<Tx>, parents: set<nat>, s: Selection): Selection {
    Selection(s.dag, batch + s.batch, parents + s.parents)
  }

  lemma {:induction false} SelectOne(d: Dag<Tx>, budget: BatchBudget, batch: seq<Tx>,
                                     parents: set<nat>)
    requires d.Roots() != {} && budget.Fits(d.vertices[Min(d.Roots())])
    ensures var root := Min(d.Roots());
      Continue(batch, parents, SelectBatch(d, budget)) ==
      Continue(batch + [d.vertices[root]], parents + d.parents[root],
               SelectBatch(Process(d, root), budget.Subtract(d.vertices[root])))
  {
    var root := Min(d.Roots());
    var rest := SelectBatch(Process(d, root), budget.Subtract(d.vertices[root]));
    assert batch + ([d.vertices[root]] + rest.batch) == batch + [d.vertices[root]] + rest.batch;
  }

  class TransactionGraph {
    const inner: DependencyGraph<Tx>

    ghost predicate Valid()
      reads this, inner
    {
      var valid :=
        inner.Valid() && Keyed(inner.Model());
      valid
    }

    constructor ()
      ensures fresh(inner)
      ensures Valid()
      ensures inner.Model() == Dag(map[], map[], {})
    {
      inner := new DependencyGraph();
    }

    method InsertTransaction(tx: Tx, parents: set<nat>) returns (r: Outcome<GraphError>)
      requires Valid()
      modifies inner
      ensures Valid()
      ensures inner.Model() == Insert(old(inner.Model()), tx, parents).Else(old(inner.Model()))
      ensures r == Insert(old(inner.Model()), tx, parents).Report()
    {
      r := inner.InsertPending(tx.id, parents);
      if r.Fail? {
        return;
      }
      assert inner.Model().PromotePending(tx.id, tx).Ok?;
      r := inner.PromotePending(tx.id, tx);
    }

    /** Selects transactions for the next batch, also returning their parents. */
    method Select(budget: BatchBudget) returns (batch: seq<Tx>, parents: set<nat>)
      requires Valid()
      modifies inner
      ensures Valid()
      ensures SelectBatch(old(inner.Model()), budget) == Selection(inner.Model(), batch, parents)
    {
      batch, parents := [], {};
      var left := budget;
      while inner.roots != {}
        invariant Valid()
        invariant inner.vertices == old(inner.vertices)
        invariant SelectBatch(old(inner.Model()), budget)
          == Continue(batch, parents, SelectBatch(inner.Model(), left))
        decreases inner.vertices.Keys - inner.processed
      {
        var root := Min(inner.roots);
        var tx := inner.vertices[root];
        if !left.Fits(tx) {
          break;
        }
        SelectOne(inner.Model(), left, batch, parents);
        left := left.Subtract(tx);
        Take(root);
        var txParents := inner.parents[root];
        batch := batch + [tx];
        parents := parents + txParents;
      }
    }

    method Take(root: nat)
      requires Valid() && root in inner.roots
      modifies inner
      ensures Valid()
      ensures inner.Model() == Process(old(inner.Model()), root)
      ensures root in old(inner.vertices.Keys - inner.processed)
    {
      ProcessKeepsWellFormed(inner.Model(), root);
      var r := inner.ProcessRoot(root);
      assert r.Pass?;
    }

    /** Puts transactions back in line, with all selected ones that depend on them. */
    method Requeue(txs: set<nat>) returns (r: Outcome<GraphError>)
      requires Valid()
      modifies inner
      ensures Valid()
      ensures inner.Model() == old(inner.Model()).RevertSubgraphs(txs).Else(old(inner.Model()))
      ensures r == old(inner.Model()).RevertSubgraphs(txs).Report()
    {
      r := inner.RevertSubgraphs(txs);
    }

    /** Forgets transactions that are part of the chain now. */
    method Commit(txs: seq<nat>) returns (r: Outcome<GraphError>)
      requires Valid()
      modifies inner
      ensures Valid()
      ensures var d := old(inner.Model());
        inner.Model() == d.PruneProcessed(Elems(txs)).Else(d)
      ensures r == old(inner.Model()).PruneProcessed(Elems(txs)).Report()
    {
      var pruned := inner.PruneProcessed(Elems(txs));
      r := pruned.Report();
    }

    /** Removes the transactions and all their descendants, returning what was removed. */
    method Remove(txs: set<nat>) returns (r: Result<set<nat>, GraphError>)
      requires Valid()
      modifies inner
      ensures Valid()
      ensures inner.Model() == old(inner.Model()).PurgeSubgraphs(txs).Else(old(inner.Model()))
      ensures r == if old(inner.Model()).PurgeSubgraphs(txs).Ok?
                   then Ok(Descendants(old(inner.parents), txs))
                   else Err(old(inner.Model()).PurgeSubgraphs(txs).error)
    {
      r := inner.PurgeSubgraphs(txs);
    }
  }
}
