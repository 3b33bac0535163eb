/** How the batch graph relates to the transaction graph: it is the quotient of the batched part.
    Batches are vertices, and a batch's parents are exactly the batches of its transactions'
    parents outside it. */
module Quotients {
  import opened Prelude
  import opened Dags
  import opened BatchGraphs

  /** The direct parents of a batch's transactions that are not in the batch. */
  function Outside(e: Edges, txs: seq<nat>): set<nat> {
    (set t, p | t in txs && t in e && p in e[t] :: p) - Elems(txs)
  }

  /** No transaction of the list depends on itself or a later one. */
  ghost predicate ExecutionOrder(e: Edges, txs: seq<nat>) {
    forall i, j :: 0 <= i <= j < |txs| && txs[i] in e ==> txs[j] !in e[txs[i]]
  }

  ghost predicate Quotient(e: Edges, s: Batches) {
    var quotient :=
      && (forall b :: b in s.batchTxs && b in s.dag.parents ==>
            s.dag.parents[b] == s.BatchesOf(Outside(e, s.batchTxs[b])))
      && (forall b :: b in s.batchTxs ==>
            s.batchTxs[b] != [] && NoDup(s.batchTxs[b]) && ExecutionOrder(e, s.batchTxs[b]));
    quotient
  }

  /** A processed transaction that depends on one of a descendant-closed set of batches is in one
      of those batches. */
  lemma DependentsAreInBatches(e: Edges, s: Batches, gone: set<nat>, k: nat, p: nat)
    requires s.Indexed() && Quotient(e, s) && Closed(s.dag.parents, gone)
    requires k in s.txBatch && k in e && p in e[k] && p in TxsOf(s.batchTxs, gone)
    ensures k in TxsOf(s.batchTxs, gone)
  {
    var x :| x in gone && x in s.batchTxs && p in s.batchTxs[x];
    var y := s.txBatch[k];
    if y != x {
      assert s.txBatch[p] == x && y in s.batchTxs && k in s.batchTxs[y];
      assert p !in s.batchTxs[y];
      assert p in Outside(e, s.batchTxs[y]);
      assert s.txBatch[p] == x && x in s.dag.parents[y];
    }
  }

  /** The transactions of an ancestor-closed set of batches depend only on each other. */
  lemma ParentsAreInBatches(e: Edges, s: Batches, done: set<nat>, k: nat, p: nat)
    requires s.Indexed() && Quotient(e, s)
    requires forall b :: b in done && b in s.dag.parents ==> s.dag.parents[b] <= done
    requires k in TxsOf(s.batchTxs, done) && k in e && p in e[k] && p in s.txBatch
    ensures p in TxsOf(s.batchTxs, done)
  {
    var x :| x in done && x in s.batchTxs && k in s.batchTxs[x];
    var y := s.txBatch[p];
    if y != x {
      assert p in Outside(e, s.batchTxs[x]) by {
        assert p !in Elems(s.batchTxs[x]);
      }
      assert y in s.dag.parents[x];
    }
    assert y in done && p in s.batchTxs[y];
  }

  /** Inserting transactions or edges elsewhere does not concern existing batches. */
  lemma QuotientFrame(e: Edges, e': Edges, s: Batches)
    requires s.Indexed() && Quotient(e, s)
    requires forall t :: t in s.txBatch && t in e ==> t in e' && e'[t] == e[t]
    requires forall t :: t in s.txBatch && t in e' ==> t in e
    ensures Quotient(e', s)
  {
    forall b | b in s.batchTxs
      ensures Outside(e', s.batchTxs[b]) == Outside(e, s.batchTxs[b])
      ensures ExecutionOrder(e', s.batchTxs[b])
    {
      var txs := s.batchTxs[b];
      assert forall t :: t in txs ==> t in s.txBatch;
    }
  }

  /** A new batch whose outside parents are all batched joins the quotient. */
  lemma QuotientInsert(e: Edges, s: Batches, contents: Contents, parents: set<nat>,
                       idOf: BatchIds)
    requires s.Indexed() && Quotient(e, s)
    requires s.Insert(contents, parents, idOf).Ok?
    requires TxIds(contents) != [] && NoDup(TxIds(contents))
    requires ExecutionOrder(e, TxIds(contents))
    requires parents == set t, p | t in TxIds(contents) && t in e && p in e[t] :: p
    requires forall t :: t in s.txBatch && t in e ==> e[t] <= s.txBatch.Keys
    ensures Quotient(e, s.Insert(contents, parents, idOf).value)
  {
    var s' := s.Insert(contents, parents, idOf).value;
    var txs, id := TxIds(contents), idOf(contents);
    IntersectionEmpty(Elems(txs), s.txBatch.Keys);
    assert parents - Elems(txs) == Outside(e, txs);
    DifferenceEmpty(Outside(e, txs), s.txBatch.Keys);
    assert s'.BatchesOf(Outside(e, txs)) == s.BatchesOf(Outside(e, txs));
    forall b | b in s.batchTxs
      ensures s'.BatchesOf(Outside(e, s.batchTxs[b])) == s.BatchesOf(Outside(e, s.batchTxs[b]))
    {
      assert Outside(e, s.batchTxs[b]) <= s.txBatch.Keys;
    }
  }

  /** Dropping a descendant-closed set of batches leaves the quotient of what remains, also when
      some of the dropped transactions leave the transaction graph. */
  lemma QuotientRemove(e: Edges, s: Batches, gone: set<nat>, removed: set<nat>)
    requires s.Indexed() && Quotient(e, s) && gone <= s.batchTxs.Keys
    requires Closed(s.dag.parents, gone)
    requires forall t :: t in removed && t in s.txBatch ==> s.txBatch[t] in gone
    ensures Quotient(e - removed, s.Without(gone))
  {
    var s', e' := s.Without(gone), e - removed;
    TxsOfDisjoint(s, gone);
    forall b | b in s'.batchTxs
      ensures Outside(e', s.batchTxs[b]) == Outside(e, s.batchTxs[b])
      ensures ExecutionOrder(e', s.batchTxs[b])
      ensures s'.dag.parents[b] == s'.BatchesOf(Outside(e', s.batchTxs[b]))
    {
      var txs := s.batchTxs[b];
      forall t | t in txs ensures t !in removed {
        assert t in s.txBatch && s.txBatch[t] == b;
      }
      assert forall t :: t in txs && t in e ==> t in e' && e'[t] == e[t];
      assert forall t :: t in txs && t in e' ==> t in e;
      var out := Outside(e, txs);
      SameOutside(e, e', txs);
      forall q | q in out && q in s.txBatch ensures s.txBatch[q] !in gone {
        assert s.txBatch[q] in s.BatchesOf(out);
      }
      assert s'.BatchesOf(out) == s.BatchesOf(out);
    }
  }

  /** Pruning an ancestor-closed set of batches, with their transactions, leaves the quotient of
      what remains. */
  lemma QuotientPrune(e: Edges, s: Batches, ids: set<nat>)
    requires s.Indexed() && Quotient(e, s) && s.Prune(ids).Ok?
    ensures Quotient(Shrunk(e, TxsOf(s.batchTxs, ids)), s.Prune(ids).value)
  {
    var done := TxsOf(s.batchTxs, ids);
    var s', e' := s.Prune(ids).value, Shrunk(e, done);
    TxsOfDisjoint(s, ids);
    forall b | b in s'.batchTxs
      ensures ExecutionOrder(e', s.batchTxs[b])
      ensures s'.dag.parents[b] == s'.BatchesOf(Outside(e', s.batchTxs[b]))
    {
      var txs := s.batchTxs[b];
      forall t | t in txs ensures t !in done {
        assert t in s.txBatch && s.txBatch[t] == b;
      }
      OutsideShrinks(e, txs, done);
      var out := Outside(e, txs);
      BatchesOfRest(s, s', ids, out);
    }
  }

  lemma SameOutside(e: Edges, e': Edges, txs: seq<nat>)
    requires forall t :: t in txs && t in e ==> t in e' && e'[t] == e[t]
    requires forall t :: t in txs && t in e' ==> t in e
    ensures Outside(e', txs) == Outside(e, txs)
  {
  }

  lemma BatchesOfRest(s: Batches, s': Batches, ids: set<nat>, out: set<nat>)
    requires s.Indexed() && ids <= s.batchTxs.Keys
    requires s'.txBatch == s.txBatch - TxsOf(s.batchTxs, ids)
    ensures s'.BatchesOf(out - TxsOf(s.batchTxs, ids)) == s.BatchesOf(out) - ids
  {
    TxsOfDisjoint(s, ids);
    var done := TxsOf(s.batchTxs, ids);
    forall x | x in s.BatchesOf(out) - ids ensures x in s'.BatchesOf(out - done) {
      var q :| q in out && q in s.txBatch && s.txBatch[q] == x;
      assert q in out - done && q in s'.txBatch;
    }
  }

  lemma OutsideShrinks(e: Edges, txs: seq<nat>, done: set<nat>)
    requires Elems(txs) !! done
    ensures Outside(Shrunk(e, done), txs) == Outside(e, txs) - done
    ensures ExecutionOrder(e, txs) ==> ExecutionOrder(Shrunk(e, done), txs)
  {
    var e' := Shrunk(e, done);
    forall t | t in txs ensures t in e' <==> t in e {
      assert t in Elems(txs);
    }
    forall p | p in Outside(e, txs) - done ensures p in Outside(e', txs) {
      var t :| t in txs && t in e && p in e[t];
      assert t in e' && p in e'[t];
    }
  }
}
