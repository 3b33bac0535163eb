/** What the dependencies of the mempool are good for: over every run, the transactions of an
    account continue one another, and notes are created before they are consumed. */
module MempoolChain {
  import opened Prelude
  import opened Dags
  import opened Transactions
  import opened InflightCores
  import opened BatchGraphs
  import opened Quotients
  import opened MempoolModel
  import opened MempoolSteps
  import opened MempoolRuns

  // ---------------------------------------------------------------------------------------------
  // Dependencies

  /** `txs[j]` was the account's last transaction when `tx` came, or creates a note it consumes. */
  predicate Precedes(txs: seq<Tx>, j: nat, tx: Tx)
    requires j < |txs|
  {
    IsLast(txs, tx.account, j) || exists n :: n in tx.unauthenticated && n in txs[j].outputs
  }

  lemma {:induction false} ParentsAre(txs: seq<Tx>, tx: Tx, p: nat)
    requires Distinct(txs)
    ensures p in ParentsIn(txs, tx) <==>
            exists j: nat :: j < |txs| && txs[j].id == p && Precedes(txs, j, tx)
  {
    if p in AccountParent(txs, tx.account) {
      LastOn(txs, tx.account);
    } else if p in ParentsIn(txs, tx) {
      var n :| n in tx.unauthenticated && n in Outputs(txs) && Creator(txs, n) == p;
      var t :| t in txs && n in t.outputs && t.id == p;
      var j: nat :| j < |txs| && txs[j] == t;
      assert Precedes(txs, j, tx);
    }
    forall j: nat | j < |txs| && txs[j].id == p && Precedes(txs, j, tx)
      ensures p in ParentsIn(txs, tx)
    {
      if IsLast(txs, tx.account, j) {
        LastIsParent(txs, tx.account, j);
      } else {
        var n :| n in tx.unauthenticated && n in txs[j].outputs;
        CreatorUnique(txs, txs[j], n);
      }
    }
  }

  lemma LastIsParent(txs: seq<Tx>, account: nat, j: nat)
    requires IsLast(txs, account, j)
    ensures txs[j].id in AccountParent(txs, account)
  {
    NoneOn(txs, account);
    assert txs[j] in txs;
    LastOn(txs, account);
    hide On;
    var own := On(txs, account);
    var i: nat :| IsLast(txs, account, i) && txs[i] == own[|own| - 1];
    assert i == j;
  }

  lemma {:induction false} EdgesAt(txs: seq<Tx>, i: nat)
    requires Distinct(txs) && i < |txs|
    ensures Distinct(txs[..i])
    ensures txs[i].id in EdgesOf(txs) && EdgesOf(txs)[txs[i].id] == ParentsIn(txs[..i], txs[i])
    decreases |txs|
  {
    var f, t := txs[..|txs| - 1], txs[|txs| - 1];
    EdgesFront(txs);
    hide EdgesOf, ParentsIn, Distinct;
    if i < |f| {
      EdgesAt(f, i);
      assert f[..i] == txs[..i] && f[i] == txs[i];
      assert f[i].id != t.id;
    } else {
      assert txs[..i] == f;
    }
  }

  /** A transaction depends exactly on the one that was the last of its account before it and on
      those before it that create its unauthenticated notes. */
  lemma {:induction false} DependsExactly(txs: seq<Tx>, i: nat, p: nat)
    requires Distinct(txs) && i < |txs|
    ensures txs[i].id in EdgesOf(txs)
    ensures p in EdgesOf(txs)[txs[i].id] <==>
            exists j: nat :: j < i && txs[j].id == p && Precedes(txs[..i], j, txs[i])
  {
    EdgesAt(txs, i);
    ParentsAre(txs[..i], txs[i], p);
  }

  // ---------------------------------------------------------------------------------------------
  // Accounts

  /** Every transaction starts from the state in which the one before it left the account. */
  ghost predicate Seamless(txs: seq<Tx>) {
    forall i :: 0 <= i < |txs| ==> Continues(txs[..i], txs[i])
  }

  predicate Joined(own: seq<Tx>) {
    forall k :: 0 < k < |own| ==> own[k].initial == own[k - 1].final
  }

  lemma SeamlessPush(f: seq<Tx>, t: Tx)
    ensures Seamless(f + [t]) <==> Seamless(f) && Continues(f, t)
  {
    var all := f + [t];
    assert all[..|f|] == f && all[|f|] == t;
    assert forall i :: 0 <= i < |f| ==> all[..i] == f[..i] && all[i] == f[i];
    hide Continues;
  }

  lemma {:induction false} ContinuesOn(f: seq<Tx>, t: Tx)
    ensures Continues(f, t) <==> Joins(On(f, t.account), t)
  {
    NoneOn(f, t.account);
    if On(f, t.account) != [] {
      LastOn(f, t.account);
      hide On;
      var own := On(f, t.account);
      var i: nat :| IsLast(f, t.account, i) && f[i] == own[|own| - 1];
      assert forall j: nat :: IsLast(f, t.account, j) ==> j == i;
    } else {
      forall i: nat ensures !IsLast(f, t.account, i) {
        assert i < |f| ==> f[i] in f;
      }
    }
  }

  lemma JoinedPush(own: seq<Tx>, t: Tx)
    ensures Joined(own + [t]) <==> Joined(own) && Joins(own, t)
  {
    var all := own + [t];
    assert forall k :: 0 <= k < |own| ==> all[k] == own[k];
    if Joined(all) {
      forall k | 0 < k < |own| ensures own[k].initial == own[k - 1].final {
        assert all[k].initial == all[k - 1].final;
      }
      assert own != [] ==> all[|own|].initial == all[|own| - 1].final;
    }
  }

  ghost predicate AllJoined(txs: seq<Tx>) {
    forall a :: Joined(On(txs, a))
  }

  predicate Joins(own: seq<Tx>, t: Tx) {
    own != [] ==> t.initial == own[|own| - 1].final
  }

  lemma {:induction false} SeamlessOn(txs: seq<Tx>)
    ensures Seamless(txs) <==> AllJoined(txs)
    decreases |txs|
  {
    if txs != [] {
      var f, t := txs[..|txs| - 1], txs[|txs| - 1];
      assert txs == f + [t];
      SeamlessOn(f);
      SeamlessPush(f, t);
      ContinuesOn(f, t);
      hide Seamless, Continues, AllJoined;
      JoinedOn(f, t);
      hide On, Joined;
    }
  }

  lemma {:induction false} JoinedOn(f: seq<Tx>, t: Tx)
    ensures AllJoined(f + [t]) <==> AllJoined(f) && Joins(On(f, t.account), t)
  {
    var txs, own := f + [t], On(f, t.account);
    JoinedPush(own, t);
    forall a ensures On(txs, a) == if a == t.account then On(f, a) + [t] else On(f, a) {
      UnfoldOn(f, t, a);
    }
    hide On, Joined, Joins;
    if AllJoined(txs) {
      assert Joined(On(txs, t.account));
      forall a ensures Joined(On(f, a)) {
        assert Joined(On(txs, a));
      }
    }
    if AllJoined(f) && Joins(own, t) {
      assert Joined(On(f, t.account));
      forall a ensures Joined(On(txs, a)) {
        assert Joined(On(f, a));
      }
    }
  }

  /** What is left when the ends are cut off. */
  ghost predicate Middle(whole: seq<Tx>, part: seq<Tx>) {
    exists i: nat, j: nat :: i <= j <= |whole| && part == whole[i..j]
  }

  lemma IsMiddle(front: seq<Tx>, part: seq<Tx>, back: seq<Tx>)
    ensures Middle(front + part + back, part)
  {
    var whole := front + part + back;
    assert whole[|front|..|front| + |part|] == part;
  }

  /** Cutting off the ends of every account's transactions leaves no gap. */
  lemma {:induction false} SeamlessPart(txs: seq<Tx>, txs': seq<Tx>)
    requires Seamless(txs) && forall a :: Middle(On(txs, a), On(txs', a))
    ensures Seamless(txs')
  {
    SeamlessOn(txs);
    SeamlessOn(txs');
    hide On, Seamless, Joined, Middle;
    assert AllJoined(txs);
    forall a ensures Joined(On(txs', a)) {
      assert Joined(On(txs, a)) && Middle(On(txs, a), On(txs', a));
      JoinedMiddle(On(txs, a), On(txs', a));
    }
  }

  lemma JoinedMiddle(own: seq<Tx>, part: seq<Tx>)
    requires Joined(own) && Middle(own, part)
    ensures Joined(part)
  {
    var i: nat, j: nat :| i <= j <= |own| && part == own[i..j];
    JoinedPart(own, i, j);
  }

  lemma JoinedPart(own: seq<Tx>, i: nat, j: nat)
    requires Joined(own) && i <= j <= |own|
    ensures Joined(own[i..j])
  {
    var part := own[i..j];
    forall k | 0 < k < |part| ensures part[k].initial == part[k - 1].final {
      assert part[k] == own[i + k] && part[k - 1] == own[i + k - 1];
    }
  }

  lemma SeamlessRevert(core: Core, tip: nat, gone: set<nat>)
    requires Seamless(core.All()) && core.Consistent(tip)
    requires Closed(EdgesOf(core.log), gone)
    ensures Seamless(core.Revert(gone).All())
  {
    DistinctParts(core.Past(), core.log);
    hide Seamless, Distinct, Closed, EdgesOf, Middle;
    forall a ensures Middle(On(core.All(), a), On(core.Revert(gone).All(), a)) {
      CutAccount(core.Past(), core.log, gone, a);
    }
    SeamlessPart(core.All(), core.Revert(gone).All());
  }

  lemma {:induction false} CutAccount(past: seq<Tx>, log: seq<Tx>, gone: set<nat>, a: nat)
    requires Distinct(log) && Closed(EdgesOf(log), gone)
    ensures Middle(On(past + log, a), On(past + Without(log, gone), a))
  {
    DescendantsCutAccount(log, gone, a);
    OnAppend(past, log, a);
    OnAppend(past, Without(log, gone), a);
    OnlyShorter(On(log, a), gone);
    hide On, Only, Without, Middle, Distinct, Closed, EdgesOf;
    CutEnd(On(past, a), On(log, a), |On(log, a)| - |Only(On(log, a), gone)|);
  }

  lemma CutEnd(front: seq<Tx>, own: seq<Tx>, n: nat)
    requires n <= |own|
    ensures Middle(front + own, front + own[..n])
  {
    assert [] + (front + own[..n]) + own[n..] == front + own;
    IsMiddle([], front + own[..n], own[n..]);
  }

  lemma {:induction false} OnlyShorter(txs: seq<Tx>, ids: set<nat>)
    ensures |Only(txs, ids)| <= |txs|
  {
  }

  lemma DistinctParts(past: seq<Tx>, log: seq<Tx>)
    requires Distinct(past + log)
    ensures Distinct(log)
  {
    NoDupSplit(past, log);
    assert forall t :: t in log ==> t in past + log;
  }

  lemma SeamlessCommit(core: Core, tip: nat, done: set<nat>, retain: nat)
    requires Seamless(core.All()) && core.Consistent(tip)
    requires AncestorClosed(EdgesOf(core.log), done)
    ensures Seamless(core.Commit(done, retain).All())
  {
    DistinctParts(core.Past(), core.log);
    var moved := Core(core.blocks + [Only(core.log, done)], Without(core.log, done));
    FlatPush(core.blocks, Only(core.log, done));
    forall a ensures On(moved.All(), a) == On(core.All(), a) {
      AncestorsSplitAccount(core.log, done, a);
      OnAppend(core.Past(), core.log, a);
      OnAppend(core.Past(), Only(core.log, done), a);
      OnAppend(core.Past() + Only(core.log, done), Without(core.log, done), a);
    }
    hide On, Only, Without, Middle;
    forall a ensures Middle(On(core.All(), a), On(moved.All(), a)) {
      var own := On(core.All(), a);
      assert [] + own + [] == own;
      IsMiddle([], own, []);
    }
    SeamlessPart(core.All(), moved.All());
    SeamlessPrune(moved, retain);
  }

  lemma SeamlessPrune(core: Core, retain: nat)
    requires Seamless(core.All())
    ensures Seamless(core.PruneBlock(retain).All())
  {
    if |core.blocks| > retain {
      FlatTail(core.blocks);
      var rest := core.PruneBlock(retain).All();
      assert core.All() == core.blocks[0] + rest;
      forall a ensures Middle(On(core.All(), a), On(rest, a)) {
        OnAppend(core.blocks[0], rest, a);
        hide On, Middle;
        var first, own := On(core.blocks[0], a), On(rest, a);
        assert first + own + [] == first + own;
        IsMiddle(first, own, []);
      }
      SeamlessPart(core.All(), rest);
    }
  }

  // ---------------------------------------------------------------------------------------------
  // What a step does to the transactions

  /** Neither the tracked transactions nor the history changed. */
  ghost predicate SameHistory(w: World, w': World) {
    && w'.pool.core == w.pool.core && w'.pool.tip == w.pool.tip
    && w'.admitted == w.admitted && w'.parentsOf == w.parentsOf
    && w'.committed == w.committed && w'.height == w.height
  }

  ghost predicate Admits(cfg: Config, w: World, tx: Tx, w': World) {
    && |w.pool.core.blocks| <= w.pool.tip
    && w' == Admitted(w, tx) && w.pool.core.Verify(w.pool.tip, cfg.slack, tx).Pass?
    && tx.id !in Elems(w.committed) && tx.id !in w.pool.txs.parents
  }

  ghost predicate Shape(cfg: Config, w: World, a: Action, w': World) {
    || SameHistory(w, w')
    || (a.Add? && Admits(cfg, w, a.tx, w'))
    || (a.CommitBlock? && w' == Committed(cfg, w, AfterCommit(cfg, w.pool)))
    || (a.RollbackBlock? && w' == RolledBackWorld(w))
  }

  ghost function RolledBackWorld(w: World): World {
    w.(pool := AfterRollback(w.pool), order := [],
       reverted := w.reverted + Descendants(w.pool.txs.parents, BlockTxs(w.pool)))
  }

  lemma StepShape(cfg: Config, w: World, a: Action)
    requires WorldInv(cfg, w) && Allowed(cfg, w, a)
    ensures Next(cfg, w, a).Some? && Shape(cfg, w, a, Next(cfg, w, a).value)
  {
    StepKeepsWorld(cfg, w, a);
    hide History;
    match a
    case Add(tx) => AddShape(cfg, w, tx);
    case CommitBlock =>
      CommitBlockOutcome(cfg, w.pool);
      hide AfterCommit, MempoolModel.CommitBlock;
      NextCommit(cfg, w, AfterCommit(cfg, w.pool));
    case RollbackBlock =>
      RollbackBlockOutcome(cfg, w.pool);
      hide AfterRollback, MempoolModel.RollbackBlock;
    case _ => OtherShape(cfg, w, a);
  }

  lemma AddShape(cfg: Config, w: World, tx: Tx)
    requires Inv(cfg, w.pool) && Allowed(cfg, w, Add(tx))
    ensures Next(cfg, w, Add(tx)).Some? && Shape(cfg, w, Add(tx), Next(cfg, w, Add(tx)).value)
  {
    AddNext(cfg, w, tx);
    AddOutcome(cfg, w.pool, tx);
    hide Inv, Core.Verify, Insertable, Ids;
  }

  lemma OtherShape(cfg: Config, w: World, a: Action)
    requires |w.pool.core.blocks| <= w.pool.tip && Next(cfg, w, a).Some?
    requires !a.Add? && !a.CommitBlock? && !a.RollbackBlock?
    ensures SameHistory(w, Next(cfg, w, a).value)
  {
  }

  // ---------------------------------------------------------------------------------------------
  // The blocks that are tracked

  /** The block holds exactly the transactions committed at the height. */
  ghost predicate BlockAt(w: World, block: seq<Tx>, height: nat) {
    forall t {:trigger t in block} :: t in block <==>
      t.id in w.committed && t.id in w.height && w.height[t.id] == height &&
      t.id in w.admitted && w.admitted[t.id] == t
  }

  /** Tracked are the newest blocks, as many as are to be retained, and nothing older. */
  ghost predicate Retained(cfg: Config, start: nat, w: World) {
    var blocks, tip := w.pool.core.blocks, w.pool.tip;
    && start <= tip
    && |blocks| == (if tip - start < cfg.retain then tip - start else cfg.retain)
    && (forall k :: 0 <= k < |blocks| ==> BlockAt(w, blocks[k], tip - |blocks| + 1 + k))
    && forall id :: id in w.committed ==> id in w.height && w.height[id] <= tip
  }

  lemma RetainedSame(cfg: Config, start: nat, w: World, w': World)
    requires Retained(cfg, start, w) && SameHistory(w, w')
    ensures Retained(cfg, start, w')
  {
  }

  lemma RetainedAdmit(cfg: Config, start: nat, w: World, tx: Tx)
    requires Retained(cfg, start, w) && tx.id !in Elems(w.committed)
    ensures Retained(cfg, start, Admitted(w, tx))
  {
    var w' := Admitted(w, tx);
    forall id | id in w.committed ensures id != tx.id {
      assert id in Elems(w.committed);
    }
    forall k | 0 <= k < |w.pool.core.blocks|
      ensures BlockAt(w', w.pool.core.blocks[k], w.pool.tip - |w.pool.core.blocks| + 1 + k)
    {
      assert BlockAt(w, w.pool.core.blocks[k], w.pool.tip - |w.pool.core.blocks| + 1 + k);
    }
  }

  lemma RetainedRevert(cfg: Config, start: nat, w: World, gone: set<nat>, w': World)
    requires Retained(cfg, start, w)
    requires w'.pool.core == w.pool.core.Revert(gone) && w'.pool.tip == w.pool.tip
    requires w'.admitted == w.admitted && w'.committed == w.committed && w'.height == w.height
    ensures Retained(cfg, start, w')
  {
    forall k | 0 <= k < |w.pool.core.blocks|
      ensures BlockAt(w', w.pool.core.blocks[k], w.pool.tip - |w.pool.core.blocks| + 1 + k)
    {
      assert BlockAt(w, w.pool.core.blocks[k], w.pool.tip - |w.pool.core.blocks| + 1 + k);
    }
  }

  /** What a commit keeps of the tracked blocks. */
  lemma {:induction false} CommitRetains(core: Core, done: set<nat>, retain: nat)
    requires |core.blocks| <= retain
    ensures var all := core.blocks + [Only(core.log, done)];
      core.Commit(done, retain).blocks ==
      all[if |all| <= retain then 0 else |all| - retain..]
  {
    var all := core.blocks + [Only(core.log, done)];
    assert all[0..] == all;
  }

  lemma NewBlockAt(w: World, w': World)
    requires Remembered(w.pool.core.log, w.admitted) && w'.admitted == w.admitted
    requires Elems(w.order) == BlockTxs(w.pool) && Elems(w.order) <= Ids(w.pool.core.log)
    requires w'.committed == w.committed + w.order
    requires w'.height == w.height + AtHeight(w.order, w.pool.tip + 1)
    requires forall id :: id in w.committed ==> id in w.height && w.height[id] <= w.pool.tip
    requires Ids(w.pool.core.log) !! Elems(w.committed)
    ensures BlockAt(w', Only(w.pool.core.log, BlockTxs(w.pool)), w.pool.tip + 1)
    ensures forall id :: id in w.committed ==> w'.height[id] == w.height[id] && id !in w.order
    ensures forall id :: id in w'.committed ==> id in w'.height && w'.height[id] <= w.pool.tip + 1
  {
    hide Only, BlockTxs;
    var block := Only(w.pool.core.log, BlockTxs(w.pool));
    assert forall t :: t in block <==> t in w.pool.core.log && t.id in BlockTxs(w.pool) by {
      OnlyIs(w.pool.core.log, BlockTxs(w.pool));
    }
    forall id | id in w.committed ensures id !in w.order {
      assert id in Elems(w.committed);
      assert id in w.order ==> id in Elems(w.order);
    }
    assert forall id :: id in w'.committed <==> id in w.committed || id in w.order;
    assert forall id :: id in w.order <==> id in Elems(w.order);
    forall id | id in w.order ensures exists t :: t in w.pool.core.log && t.id == id {
      assert id in Ids(w.pool.core.log);
    }
  }

  lemma {:induction false} OnlyIs(txs: seq<Tx>, keep: set<nat>)
    ensures forall t {:trigger t in Only(txs, keep)} :: t in Only(txs, keep) <==>
      t in txs && t.id in keep
  {
  }

  lemma OldBlockAt(w: World, w': World, block: seq<Tx>, height: nat)
    requires BlockAt(w, block, height) && height <= w.pool.tip && w'.admitted == w.admitted
    requires w'.committed == w.committed + w.order
    requires forall id :: id in w.committed ==> id in w.height && id in w'.height
    requires forall id :: id in w.committed ==> w'.height[id] == w.height[id] && id !in w.order
    requires forall id :: id in w.order ==> id in w'.height && w'.height[id] == w.pool.tip + 1
    ensures BlockAt(w', block, height)
  {
    assert forall id :: id in w'.committed <==> id in w.committed || id in w.order;
  }

  /** The facts about a block in progress that the history needs. */
  lemma InProgress(cfg: Config, w: World)
    requires WorldInv(cfg, w) && w.pool.block.Some?
    ensures Remembered(w.pool.core.log, w.admitted)
    ensures Elems(w.order) == BlockTxs(w.pool) <= Ids(w.pool.core.log)
    ensures Ids(w.pool.core.log) !! Elems(w.committed)
    ensures AncestorClosed(EdgesOf(w.pool.core.log), BlockTxs(w.pool))
    ensures w.pool.txs.parents == EdgesOf(w.pool.core.log) && w.pool.core.Consistent(w.pool.tip)
  {
    Parts(cfg, w.pool);
    BlockIsAncestorClosed(w.pool.txs, w.pool.batches);
    assert w.pool.txs.parents == EdgesOf(w.pool.core.log) by {
      hide Quotient, Dag.WellFormed, Batches.WellFormed;
    }
    UncommittedYet(w, BlockTxs(w.pool)) by {
      hide Inv;
    }
    hide Inv, Quotient, BlockTxs;
  }

  lemma CommittedCore(cfg: Config, w: World)
    requires |w.pool.core.blocks| <= w.pool.tip
    ensures var w', p := Committed(cfg, w, AfterCommit(cfg, w.pool)), w.pool;
      && w'.pool.core == p.core.Commit(BlockTxs(p), cfg.retain).Revert(ExpiredWith(cfg, p))
      && w'.pool.tip == p.tip + 1 && w'.committed == w.committed + w.order
      && w'.height == w.height + AtHeight(w.order, p.tip + 1)
      && w'.admitted == w.admitted && w'.parentsOf == w.parentsOf
  {
  }

  lemma RetainedCommit(cfg: Config, start: nat, w: World)
    requires WorldInv(cfg, w) && w.pool.block.Some? && Retained(cfg, start, w)
    requires |w.pool.core.blocks| <= w.pool.tip
    ensures Retained(cfg, start, Committed(cfg, w, AfterCommit(cfg, w.pool)))
  {
    InProgress(cfg, w);
    CommittedCore(cfg, w);
    hide WorldInv, AfterCommit, Committed, BlockTxs, ExpiredWith;
    RetainedMore(cfg, start, w, Committed(cfg, w, AfterCommit(cfg, w.pool)),
                 ExpiredWith(cfg, w.pool));
  }

  lemma RetainedMore(cfg: Config, start: nat, w: World, w': World, gone: set<nat>)
    requires Retained(cfg, start, w) && Remembered(w.pool.core.log, w.admitted)
    requires Elems(w.order) == BlockTxs(w.pool) <= Ids(w.pool.core.log)
    requires Ids(w.pool.core.log) !! Elems(w.committed)
    requires w'.pool.core == w.pool.core.Commit(BlockTxs(w.pool), cfg.retain).Revert(gone)
    requires w'.pool.tip == w.pool.tip + 1 && w'.committed == w.committed + w.order
    requires w'.height == w.height + AtHeight(w.order, w.pool.tip + 1)
    requires w'.admitted == w.admitted
    ensures Retained(cfg, start, w')
  {
    var p, done := w.pool, BlockTxs(w.pool);
    NewBlockAt(w, w');
    CommitRetains(p.core, done, cfg.retain);
    hide Only, BlockTxs, Remembered, BlockAt, Ids, Core.Commit;
    AllBlocksAt(w, w', Only(p.core.log, done));
    NewestBlocksAt(w', p.core.blocks + [Only(p.core.log, done)], w'.pool.core.blocks, p.tip + 1);
  }

  lemma AllBlocksAt(w: World, w': World, block: seq<Tx>)
    requires |w.pool.core.blocks| <= w.pool.tip
    requires var blocks := w.pool.core.blocks;
      forall k :: 0 <= k < |blocks| ==> BlockAt(w, blocks[k], w.pool.tip - |blocks| + 1 + k)
    requires BlockAt(w', block, w.pool.tip + 1) && w'.admitted == w.admitted
    requires w'.committed == w.committed + w.order
    requires forall id :: id in w.committed ==> id in w.height && id in w'.height
    requires forall id :: id in w.committed ==> w'.height[id] == w.height[id] && id !in w.order
    requires forall id :: id in w.order ==> id in w'.height && w'.height[id] == w.pool.tip + 1
    ensures var all := w.pool.core.blocks + [block];
      forall k :: 0 <= k < |all| ==> BlockAt(w', all[k], w.pool.tip + 1 - |all| + 1 + k)
  {
    var blocks := w.pool.core.blocks;
    hide BlockAt;
    forall k | 0 <= k < |blocks|
      ensures BlockAt(w', blocks[k], w.pool.tip - |blocks| + 1 + k)
    {
      OldBlockAt(w, w', blocks[k], w.pool.tip - |blocks| + 1 + k);
    }
  }

  lemma NewestBlocksAt(w: World, all: seq<seq<Tx>>, blocks: seq<seq<Tx>>, tip: nat)
    requires |blocks| <= |all| <= tip && blocks == all[|all| - |blocks|..]
    requires forall k :: 0 <= k < |all| ==> BlockAt(w, all[k], tip - |all| + 1 + k)
    ensures forall k :: 0 <= k < |blocks| ==> BlockAt(w, blocks[k], tip - |blocks| + 1 + k)
  {
    hide BlockAt;
    forall k | 0 <= k < |blocks| ensures BlockAt(w, blocks[k], tip - |blocks| + 1 + k) {
      assert blocks[k] == all[|all| - |blocks| + k];
    }
  }

  // ---------------------------------------------------------------------------------------------
  // Notes

  /** One of the given transactions creates the note. */
  ghost predicate Made(admitted: map<nat, Tx>, ids: set<nat>, n: nat) {
    exists c :: c in ids && c in admitted && n in admitted[c].outputs
  }

  /** The notes that an uncommitted transaction consumes without a proof come from its parents or
      from the chain, and those of a committed one from before it in the chain. */
  ghost predicate NotesFromBefore(w: World) {
    && (forall t, n :: t in w.pool.core.log && n in t.unauthenticated ==>
          t.id in w.parentsOf &&
          Made(w.admitted, w.parentsOf[t.id] + Elems(w.committed), n))
    && ChainFromBefore(w.committed, w.admitted)
  }

  ghost predicate ChainFromBefore(committed: seq<nat>, admitted: map<nat, Tx>) {
    forall i, n :: 0 <= i < |committed| && committed[i] in admitted &&
                   n in admitted[committed[i]].unauthenticated ==>
      Made(admitted, Elems(committed[..i]), n)
  }

  lemma NotesSame(w: World, w': World)
    requires NotesFromBefore(w) && SameHistory(w, w')
    ensures NotesFromBefore(w')
  {
  }

  lemma {:induction false} NotesRevert(w: World, gone: set<nat>, w': World)
    requires NotesFromBefore(w) && w'.pool.core.log == Without(w.pool.core.log, gone)
    requires w'.admitted == w.admitted && w'.parentsOf == w.parentsOf
    requires w'.committed == w.committed
    ensures NotesFromBefore(w')
  {
    hide Made, ChainFromBefore;
  }

  lemma MadeMore(admitted: map<nat, Tx>, ids: set<nat>, ids': set<nat>, n: nat)
    requires Made(admitted, ids, n) && ids <= ids'
    ensures Made(admitted, ids', n)
  {
  }

  lemma MadeStill(admitted: map<nat, Tx>, ids: set<nat>, n: nat, tx: Tx)
    requires Made(admitted, ids, n) && tx.id !in ids
    ensures Made(admitted[tx.id := tx], ids, n)
  {
    var c :| c in ids && c in admitted && n in admitted[c].outputs;
    assert c in admitted[tx.id := tx];
  }

  /** What an accepted transaction consumes without a proof was made by its parents or by a
      transaction in one of the tracked blocks. */
  lemma {:induction false} AcceptedNotes(cfg: Config, w: World, tx: Tx, n: nat)
    requires w.pool.core.Consistent(w.pool.tip) && Sourced(w.pool.core, tx)
    requires n in tx.unauthenticated && Remembered(w.pool.core.log, w.admitted)
    requires forall block, t :: block in w.pool.core.blocks && t in block ==>
      t.id in w.committed && t.id in w.admitted && w.admitted[t.id] == t
    ensures Made(w.admitted, ParentsIn(w.pool.core.log, tx) + Elems(w.committed), n)
  {
    var t :| t in w.pool.core.All() && n in t.outputs;
    var c := t.id;
    if t in w.pool.core.log {
      var log := w.pool.core.log;
      var j: nat :| j < |log| && log[j] == t;
      DistinctParts(w.pool.core.Past(), log);
      assert Precedes(log, j, tx);
      ParentsAre(log, tx, c);
    } else {
      FlatMember(w.pool.core.blocks, t);
    }
    assert c in ParentsIn(w.pool.core.log, tx) + Elems(w.committed);
    assert c in w.admitted && n in w.admitted[c].outputs;
  }

  lemma {:induction false} FlatMember(blocks: seq<seq<Tx>>, t: Tx)
    requires t in Flat(blocks)
    ensures exists block :: block in blocks && t in block
    decreases |blocks|
  {
    var f, last := blocks[..|blocks| - 1], blocks[|blocks| - 1];
    if t in last {
      assert last in blocks;
    } else {
      FlatMember(f, t);
      var block :| block in f && t in block;
      assert block in blocks;
    }
  }

  lemma NotesAdmit(cfg: Config, start: nat, w: World, tx: Tx)
    requires WorldInv(cfg, w) && Admits(cfg, w, tx, Admitted(w, tx))
    requires Retained(cfg, start, w) && NotesFromBefore(w)
    ensures NotesFromBefore(Admitted(w, tx))
  {
    AcceptedExactly(w.pool.core, w.pool.tip, cfg.slack, tx);
    Parts(cfg, w.pool);
    RetainedKnown(cfg, start, w);
    assert EdgesRemain(w.pool.txs.parents, w.parentsOf, Elems(w.committed));
    assert forall t :: t in w.pool.txs.parents ==>
      w.pool.txs.parents[t] <= w.pool.txs.parents.Keys by {
      assert w.pool.txs.WellFormed();
    }
    hide WorldInv, Inv, Quotient, Core.Verify, Dag.WellFormed, Batches.WellFormed, Retained;
    forall n | n in tx.unauthenticated
      ensures Made(w.admitted, ParentsIn(w.pool.core.log, tx) + Elems(w.committed), n)
    {
      AcceptedNotes(cfg, w, tx, n);
    }
    ParentsArePredecessors(w.pool.core.log, tx);
    hide Sourced, Core.Consistent, Admits, StartsRight, Spendable, Creatable, TxsAgree, Laid;
    NotesPushed(w, tx);
  }

  /** The transactions of the tracked blocks are committed ones. */
  lemma RetainedKnown(cfg: Config, start: nat, w: World)
    requires Retained(cfg, start, w)
    ensures forall block, t :: block in w.pool.core.blocks && t in block ==>
      t.id in w.committed && t.id in w.admitted && w.admitted[t.id] == t
  {
    forall block, t | block in w.pool.core.blocks && t in block
      ensures t.id in w.committed && t.id in w.admitted && w.admitted[t.id] == t
    {
      var k :| 0 <= k < |w.pool.core.blocks| && w.pool.core.blocks[k] == block;
      assert BlockAt(w, block, w.pool.tip - |w.pool.core.blocks| + 1 + k);
    }
  }

  lemma NotesPushed(w: World, tx: Tx)
    requires NotesFromBefore(w) && tx.id !in Elems(w.committed) && tx.id !in w.pool.txs.parents
    requires w.pool.txs.parents.Keys == Ids(w.pool.core.log)
    requires EdgesRemain(w.pool.txs.parents, w.parentsOf, Elems(w.committed))
    requires forall t :: t in w.pool.txs.parents ==>
      w.pool.txs.parents[t] <= w.pool.txs.parents.Keys
    requires ParentsIn(w.pool.core.log, tx) <= Ids(w.pool.core.log)
    requires forall n :: n in tx.unauthenticated ==>
      Made(w.admitted, ParentsIn(w.pool.core.log, tx) + Elems(w.committed), n)
    ensures NotesFromBefore(Admitted(w, tx))
  {
    var w' := Admitted(w, tx);
    hide Made;
    forall t, n | t in w'.pool.core.log && n in t.unauthenticated
      ensures t.id in w'.parentsOf &&
              Made(w'.admitted, w'.parentsOf[t.id] + Elems(w.committed), n)
    {
      if t in w.pool.core.log {
        assert t.id in Ids(w.pool.core.log);
        assert w.pool.txs.parents[t.id] == w.parentsOf[t.id] - Elems(w.committed);
        MadeStill(w.admitted, w.parentsOf[t.id] + Elems(w.committed), n, tx);
      } else {
        assert t == tx;
        MadeStill(w.admitted, ParentsIn(w.pool.core.log, tx) + Elems(w.committed), n, tx);
      }
    }
    forall i, n | 0 <= i < |w.committed| && w.committed[i] in w'.admitted &&
                  n in w'.admitted[w.committed[i]].unauthenticated
      ensures Made(w'.admitted, Elems(w.committed[..i]), n)
    {
      assert w.committed[i] in Elems(w.committed);
      assert forall c :: c in w.committed[..i] ==> c in w.committed;
      MadeStill(w.admitted, Elems(w.committed[..i]), n, tx);
    }
  }

  ghost function TxWithId(log: seq<Tx>, id: nat): (t: Tx)
    requires id in Ids(log)
    ensures t in log && t.id == id
  {
    var t :| t in log && t.id == id;
    t
  }

  lemma NotesCommit(cfg: Config, w: World, w': World, gone: set<nat>)
    requires NotesFromBefore(w) && Remembered(w.pool.core.log, w.admitted)
    requires Elems(w.order) <= Ids(w.pool.core.log)
    requires w'.committed == w.committed + w.order
    requires forall t :: t in w'.pool.core.log ==> t in w.pool.core.log
    requires w'.admitted == w.admitted && w'.parentsOf == w.parentsOf
    requires AfterParents(w'.committed, w.parentsOf, {})
    ensures NotesFromBefore(w')
  {
    var was, all := w.committed, w'.committed;
    assert Elems(all) == Elems(was) + Elems(w.order);
    hide Made, Ids;
    assert Elems(w.order) <= Ids(w.pool.core.log);
    forall t, n | t in w'.pool.core.log && n in t.unauthenticated
      ensures t.id in w.parentsOf && Made(w.admitted, w.parentsOf[t.id] + Elems(all), n)
    {
      MadeMore(w.admitted, w.parentsOf[t.id] + Elems(was), w.parentsOf[t.id] + Elems(all), n);
    }
    forall i, n | 0 <= i < |all| && all[i] in w.admitted && n in w.admitted[all[i]].unauthenticated
      ensures Made(w.admitted, Elems(all[..i]), n)
    {
      if i < |was| {
        assert all[i] == was[i] && all[..i] == was[..i];
      } else {
        assert all[i] == w.order[i - |was|] && all[i] in Elems(w.order);
        var t := TxWithId(w.pool.core.log, all[i]);
        assert w.parentsOf[t.id] <= {} + Elems(all[..i]);
        assert forall c :: c in was ==> c in all[..i] by {
          assert all[..i] == was + w.order[..i - |was|];
        }
        MadeMore(w.admitted, w.parentsOf[t.id] + Elems(was), Elems(all[..i]), n);
      }
    }
  }

  // ---------------------------------------------------------------------------------------------
  // Runs

  ghost predicate ChainInv(cfg: Config, start: nat, w: World) {
    var inv :=
      && WorldInv(cfg, w) && Seamless(w.pool.core.All())
      && Retained(cfg, start, w) && NotesFromBefore(w);
    inv
  }

  lemma StartChain(cfg: Config, tip: nat)
    requires Injective(cfg.idOf)
    ensures ChainInv(cfg, tip, Start(tip))
  {
    StartInv(cfg, tip);
    assert Start(tip).pool.core.All() == [];
    hide WorldInv;
  }

  lemma SameChain(cfg: Config, start: nat, w: World, w': World)
    requires ChainInv(cfg, start, w) && SameHistory(w, w') && WorldInv(cfg, w')
    ensures ChainInv(cfg, start, w')
  {
    RetainedSame(cfg, start, w, w');
    NotesSame(w, w');
    hide WorldInv, Retained, NotesFromBefore, Seamless;
  }

  lemma AdmitChain(cfg: Config, start: nat, w: World, tx: Tx)
    requires ChainInv(cfg, start, w) && Admits(cfg, w, tx, Admitted(w, tx))
    requires WorldInv(cfg, Admitted(w, tx))
    ensures ChainInv(cfg, start, Admitted(w, tx))
  {
    hide WorldInv, Retained, NotesFromBefore, Core.Verify, Seamless;
    NotesAdmit(cfg, start, w, tx);
    RetainedAdmit(cfg, start, w, tx);
    SeamlessAdd(w.pool.core, w.pool.tip, cfg.slack, tx);
  }

  lemma SeamlessAdd(core: Core, tip: nat, slack: nat, tx: Tx)
    requires Seamless(core.All()) && |core.blocks| <= tip && core.Verify(tip, slack, tx).Pass?
    ensures Seamless(core.Add(tx).All())
  {
    AcceptedExactly(core, tip, slack, tx);
    SeamlessPush(core.All(), tx);
    assert core.Add(tx).All() == core.All() + [tx];
    hide Seamless, Core.Verify, Continues;
  }

  lemma CommitChain(cfg: Config, start: nat, w: World)
    requires ChainInv(cfg, start, w) && w.pool.block.Some?
    requires |w.pool.core.blocks| <= w.pool.tip
    requires WorldInv(cfg, Committed(cfg, w, AfterCommit(cfg, w.pool)))
    ensures ChainInv(cfg, start, Committed(cfg, w, AfterCommit(cfg, w.pool)))
  {
    var w' := Committed(cfg, w, AfterCommit(cfg, w.pool));
    InProgress(cfg, w);
    CommittedCore(cfg, w);
    RetainedCommit(cfg, start, w);
    SeamlessCommit(w.pool.core, w.pool.tip, BlockTxs(w.pool), cfg.retain);
    ExpiredAreClosed(cfg, w.pool);
    CommitKeepsConsistent(w.pool.core, w.pool.tip, BlockTxs(w.pool), cfg.retain);
    assert AfterParents(w'.committed, w'.parentsOf, {});
    hide WorldInv, Retained, AfterCommit, Committed, BlockTxs, ExpiredWith, AncestorClosed;
    hide Seamless, Core.Commit, NotesFromBefore, AfterParents, EdgesOf, Core.Consistent;
    SeamlessRevert(w.pool.core.Commit(BlockTxs(w.pool), cfg.retain), w.pool.tip + 1,
                   ExpiredWith(cfg, w.pool));
    CommittedLog(cfg, w.pool);
    NotesCommit(cfg, w, w', ExpiredWith(cfg, w.pool));
  }

  lemma CommittedLog(cfg: Config, p: Pool)
    ensures forall t ::
      t in p.core.Commit(BlockTxs(p), cfg.retain).Revert(ExpiredWith(cfg, p)).log ==>
      t in p.core.log
  {
    CommitKeepsLog(p.core, BlockTxs(p), cfg.retain);
    hide BlockTxs, ExpiredWith, Core.Commit;
  }

  lemma ExpiredAreClosed(cfg: Config, p: Pool)
    requires Inv(cfg, p) && p.block.Some?
    ensures Closed(EdgesOf(p.core.Commit(BlockTxs(p), cfg.retain).log), ExpiredWith(cfg, p))
  {
    WithoutBlockAgrees(cfg, p);
    var q := WithoutBlock(cfg, p, p.tip + 1);
    assert q.txs.parents == EdgesOf(q.core.log) by {
      hide WithoutBlock, Laid, StreamAgrees, ExpiryAgrees, Core.Consistent, Dag.WellFormed;
    }
    hide Inv, Agrees, BlockTxs;
  }

  lemma RollbackChain(cfg: Config, start: nat, w: World)
    requires ChainInv(cfg, start, w) && w.pool.block.Some? && WorldInv(cfg, RolledBackWorld(w))
    ensures ChainInv(cfg, start, RolledBackWorld(w))
  {
    var w' := RolledBackWorld(w);
    var gone := Descendants(w.pool.txs.parents, BlockTxs(w.pool));
    InProgress(cfg, w);
    assert w'.pool.core == w.pool.core.Revert(gone);
    hide WorldInv, AfterRollback, BlockTxs, Descendants, Retained, NotesFromBefore, Seamless;
    RetainedRevert(cfg, start, w, gone, w');
    NotesRevert(w, gone, w');
    SeamlessRevert(w.pool.core, w.pool.tip, gone);
  }

  lemma StepChain(cfg: Config, start: nat, w: World, a: Action)
    requires ChainInv(cfg, start, w) && Allowed(cfg, w, a)
    ensures Next(cfg, w, a).Some? && ChainInv(cfg, start, Next(cfg, w, a).value)
  {
    StepShape(cfg, w, a);
    StepKeepsWorld(cfg, w, a);
    assert a.CommitBlock? || a.RollbackBlock? ==> w.pool.block.Some?;
    assert |w.pool.core.blocks| <= w.pool.tip;
    hide WorldInv, Next, Retained, NotesFromBefore, Seamless, Allowed;
    var w' := Next(cfg, w, a).value;
    if SameHistory(w, w') {
      SameChain(cfg, start, w, w');
    } else if a.Add? {
      AdmitChain(cfg, start, w, a.tx);
    } else if a.CommitBlock? {
      CommitChain(cfg, start, w);
    } else {
      RollbackChain(cfg, start, w);
    }
  }

  lemma {:induction false} RunChain(cfg: Config, start: nat, w: World, actions: seq<Action>,
                                    w': World)
    requires ChainInv(cfg, start, w) && Run(cfg, w, actions, w')
    ensures ChainInv(cfg, start, w')
    decreases |actions|
  {
    hide ChainInv, Next, Allowed;
    if actions != [] {
      StepChain(cfg, start, w, actions[0]);
      RunChain(cfg, start, Next(cfg, w, actions[0]).value, actions[1..], w');
    }
  }

  /** Over every run, with failures, expiry and commits in between, each tracked transaction starts
      from the state in which the last one tracked before it left the account. */
  lemma {:induction false} AccountsContinue(cfg: Config, tip: nat, actions: seq<Action>, w: World)
    requires Injective(cfg.idOf) && Run(cfg, Start(tip), actions, w)
    ensures Seamless(w.pool.core.All())
  {
    StartChain(cfg, tip);
    RunChain(cfg, tip, Start(tip), actions, w);
  }

  /** Over every run, what a committed transaction consumed without a proof of inclusion was created
      by a transaction before it in the chain. */
  lemma {:induction false} NotesComeFirst(cfg: Config, tip: nat, actions: seq<Action>, w: World,
                                          i: nat, n: nat)
    requires Injective(cfg.idOf) && Run(cfg, Start(tip), actions, w) && i < |w.committed|
    ensures w.committed[i] in w.admitted
    ensures n in w.admitted[w.committed[i]].unauthenticated ==>
      exists j: nat :: j < i && w.committed[j] in w.admitted &&
                       n in w.admitted[w.committed[j]].outputs
  {
    StartChain(cfg, tip);
    RunChain(cfg, tip, Start(tip), actions, w);
    NothingIsLost(cfg, tip, actions, w);
    assert w.committed[i] in Elems(w.committed);
    if n in w.admitted[w.committed[i]].unauthenticated {
      assert Made(w.admitted, Elems(w.committed[..i]), n);
      var c :| c in Elems(w.committed[..i]) && c in w.admitted && n in w.admitted[c].outputs;
      var j: nat :| j < i && w.committed[..i][j] == c;
    }
  }

  /** Over every run, the tracked blocks are the newest ones of the chain, as many as are to be
      retained or as there are since the start, each with exactly its transactions. */
  lemma {:induction false} NewestAreTracked(cfg: Config, tip: nat, actions: seq<Action>, w: World)
    requires Injective(cfg.idOf) && Run(cfg, Start(tip), actions, w)
    ensures Retained(cfg, tip, w)
  {
    StartChain(cfg, tip);
    RunChain(cfg, tip, Start(tip), actions, w);
  }

  // ---------------------------------------------------------------------------------------------
  // What a commit takes out

  /** The uncommitted transactions that no later block may contain. */
  function Overdue(log: seq<Tx>, tip: nat): set<nat> {
    set t | t in log && t.expiresAt <= tip :: t.id
  }

  /** Committing a block takes out its transactions, those of the rest that expire with it and what
      depends on those, and nothing else. */
  lemma CommitTakesOut(cfg: Config, p: Pool)
    requires Inv(cfg, p) && p.block.Some?
    ensures var q := MempoolModel.CommitBlock(cfg, p, p.tip + 1);
      var done := BlockTxs(p);
      var rest := Without(p.core.log, done);
      && q.Some?
      && q.value.core.log == Without(rest, Descendants(EdgesOf(rest), Overdue(rest, p.tip + 1)))
  {
    CommitBlockOutcome(cfg, p);
    WithoutBlockAgrees(cfg, p);
    CommitKeepsLog(p.core, BlockTxs(p), cfg.retain);
    var q := WithoutBlock(cfg, p, p.tip + 1);
    assert TxsAgree(q.txs, q.core.log) && ExpiryAgrees(q.expiry, q.core.log);
    assert q.txs.parents == EdgesOf(q.core.log);
    hide Inv, Agrees, AfterCommit, MempoolModel.CommitBlock, BlockTxs, Descendants, EdgesOf;
    forall t | t in q.core.log ensures t.expiresAt >= q.tip {
    }
    OverdueAreExpiring(q);
  }

  lemma OverdueAreExpiring(q: Pool)
    requires ExpiryAgrees(q.expiry, q.core.log)
    requires forall t :: t in q.core.log ==> t.expiresAt >= q.tip
    ensures ExpiringAt(q, q.tip) == Overdue(q.core.log, q.tip)
  {
  }
}
