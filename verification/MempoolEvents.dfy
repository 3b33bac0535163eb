/** What a subscriber of the mempool is told about blocks, over whole runs. */
module MempoolEvents {
  import opened Prelude
  import opened Dags
  import opened Transactions
  import opened InflightCores
  import opened BatchGraphs
  import opened Subscriptions
  import opened MempoolModel
  import opened MempoolSteps
  import opened MempoolRuns
  import opened MempoolChain

  /** The events about committed blocks. */
  function Blocks(events: seq<Event>): (r: seq<Event>)
    ensures forall e :: e in r ==> e.BlockCommitted?
  {
    if events == [] then [] else
      var last := events[|events| - 1];
      Blocks(events[..|events| - 1]) + if last.BlockCommitted? then [last] else []
  }

  lemma {:induction false} BlocksPush(events: seq<Event>, e: Event)
    ensures Blocks(events + [e]) == Blocks(events) + if e.BlockCommitted? then [e] else []
  {
    assert (events + [e])[..|events|] == events;
  }

  lemma {:induction false} NoBlocks(events: seq<Event>)
    requires forall e :: e in events ==> e.Added?
    ensures Blocks(events) == []
    decreases |events|
  {
    if events != [] {
      assert events[|events| - 1] in events;
      NoBlocks(events[..|events| - 1]);
    }
  }

  /** The event is about this block and lists exactly the transactions that went into it. */
  ghost predicate Reports(e: Event, number: int, height: map<nat, nat>) {
    && e.BlockCommitted? && e.number == number
    && forall t :: t in e.txs <==> t in height && height[t] == number
  }

  /** The events are about the newest blocks up to the tip, without a gap. */
  ghost predicate ReportAll(events: seq<Event>, tip: nat, height: map<nat, nat>) {
    forall i :: 0 <= i < |events| ==> Reports(events[i], tip + 1 + i - |events|, height)
  }

  ghost predicate Told(s: Stream, tip: nat, height: map<nat, nat>) {
    s.channel.Some? ==> ReportAll(Blocks(s.channel.value.sent), tip, height)
  }

  /** Every committed transaction has a height, up to the tip. */
  ghost predicate HeightsKnown(w: World) {
    && w.height.Keys == Elems(w.committed)
    && forall t :: t in w.height ==> w.height[t] <= w.pool.tip
  }

  lemma PublishTells(s: Stream, e: Event, tip: nat, height: map<nat, nat>)
    requires Told(s, tip, height) && !e.BlockCommitted?
    ensures Told(s.Publish(e), tip, height)
  {
    if s.channel.Some? {
      BlocksPush(s.channel.value.sent, e);
    }
  }

  lemma SubscribeTells(s: Stream, tip: nat, height: map<nat, nat>)
    requires s.InSync() && Told(s, s.tip, height)
    ensures Told(s.Subscribe(tip).Else(s), s.tip, height)
  {
    if s.tip == tip {
      NoBlocks(s.log);
    }
  }

  lemma NewReport(list: seq<nat>, number: nat, height: map<nat, nat>)
    requires forall t :: t in height ==> height[t] < number
    ensures Reports(BlockCommitted(number, list), number, height + AtHeight(list, number))
  {
    assert forall t :: t in list <==> t in Elems(list);
  }

  lemma OldReport(e: Event, number: int, height: map<nat, nat>, list: seq<nat>, newer: nat)
    requires Reports(e, number, height) && number < newer
    requires forall t :: t in list ==> t !in height
    ensures Reports(e, number, height + AtHeight(list, newer))
  {
    assert forall t :: t in list <==> t in Elems(list);
  }

  lemma CommitTells(s: Stream, tip: nat, list: seq<nat>, height: map<nat, nat>)
    requires Told(s, tip, height)
    requires forall t :: t in height ==> height[t] <= tip
    requires forall t :: t in list ==> t !in height
    ensures Told(s.CommitBlock(tip + 1, list), tip + 1, height + AtHeight(list, tip + 1))
  {
    var height' := height + AtHeight(list, tip + 1);
    var e := BlockCommitted(tip + 1, list);
    NewReport(list, tip + 1, height);
    if s.channel.Some? {
      BlocksPush(s.channel.value.sent, e);
      var was := Blocks(s.channel.value.sent);
      var now := was + [e];
      hide Blocks, AtHeight, Reports;
      forall i | 0 <= i < |now| ensures Reports(now[i], tip + 2 + i - |now|, height') {
        if i < |was| {
          OldReport(was[i], tip + 1 + i - |was|, height, list, tip + 1);
        }
      }
    }
  }

  // ---------------------------------------------------------------------------------------------
  // Runs

  ghost predicate ToldInv(cfg: Config, w: World) {
    var inv :=
      && WorldInv(cfg, w) && HeightsKnown(w)
      && Told(w.pool.stream, w.pool.tip, w.height);
    inv
  }

  /** What the other steps may do to the stream. */
  ghost predicate Quiet(s: Stream, s': Stream) {
    || s' == s || s' == s.Receive() || s' == s.Close()
    || exists tip :: s' == s.Subscribe(tip).Else(s)
  }

  lemma OtherStream(cfg: Config, w: World, a: Action)
    requires |w.pool.core.blocks| <= w.pool.tip && Next(cfg, w, a).Some?
    requires !a.Add? && !a.CommitBlock? && !a.RollbackBlock?
    ensures Quiet(w.pool.stream, Next(cfg, w, a).value.pool.stream)
    ensures SameHistory(w, Next(cfg, w, a).value)
  {
    if a.Subscribe? {
      assert Next(cfg, w, a).value.pool.stream ==
             w.pool.stream.Subscribe(a.tip).Else(w.pool.stream);
    }
  }

  lemma QuietTells(s: Stream, s': Stream, height: map<nat, nat>)
    requires s.InSync() && Told(s, s.tip, height) && Quiet(s, s')
    ensures Told(s', s.tip, height)
  {
    if tip :| s' == s.Subscribe(tip).Else(s) {
      SubscribeTells(s, tip, height);
    }
  }

  lemma CommittedStream(cfg: Config, w: World)
    requires |w.pool.core.blocks| <= w.pool.tip
    ensures var p, w' := w.pool, Committed(cfg, w, AfterCommit(cfg, w.pool));
      && w'.pool.stream == p.stream
           .CommitBlock(p.tip + 1, Concat(p.batches.batchTxs, p.batches.dag.processed))
           .Publish(TransactionsReverted(ExpiredWith(cfg, p)))
      && w'.pool.tip == p.tip + 1
  {
  }

  /** The block's transactions as the event lists them, and as the history does. */
  lemma ListedOnce(cfg: Config, w: World)
    requires WorldInv(cfg, w) && w.pool.block.Some? && |w.pool.core.blocks| <= w.pool.tip
    ensures var list := Concat(w.pool.batches.batchTxs, w.pool.batches.dag.processed);
      Elems(list) == Elems(w.order) && Elems(w.order) !! Elems(w.committed)
  {
    InProgress(cfg, w);
    Parts(cfg, w.pool);
    hide WorldInv, Inv, Core.Consistent, AncestorClosed;
    ConcatLists(w.pool.batches, w.pool.batches.dag.processed);
  }

  lemma CommitTold(cfg: Config, w: World)
    requires WorldInv(cfg, w) && HeightsKnown(w) && w.pool.block.Some?
    requires Told(w.pool.stream, w.pool.tip, w.height)
    requires |w.pool.core.blocks| <= w.pool.tip
    ensures var w' := Committed(cfg, w, AfterCommit(cfg, w.pool));
      HeightsKnown(w') && Told(w'.pool.stream, w'.pool.tip, w'.height)
  {
    var list := Concat(w.pool.batches.batchTxs, w.pool.batches.dag.processed);
    hide Told, WorldInv, AfterCommit, Committed, BlockTxs, ExpiredWith, Concat, AtHeight;
    ListedOnce(cfg, w);
    CommittedCore(cfg, w);
    CommittedStream(cfg, w);
    SameHeights(w.order, list, w.pool.tip + 1);
    HeightsMore(w, list);
    CommitTells(w.pool.stream, w.pool.tip, list, w.height);
    var s := w.pool.stream.CommitBlock(w.pool.tip + 1, list);
    hide Stream.CommitBlock, Stream.Publish;
    PublishTells(s, TransactionsReverted(ExpiredWith(cfg, w.pool)), w.pool.tip + 1,
                 w.height + AtHeight(list, w.pool.tip + 1));
  }

  lemma SameHeights(a: seq<nat>, b: seq<nat>, height: nat)
    requires Elems(a) == Elems(b)
    ensures AtHeight(a, height) == AtHeight(b, height)
  {
  }

  lemma HeightsMore(w: World, list: seq<nat>)
    requires HeightsKnown(w) && Elems(list) == Elems(w.order)
    requires Elems(w.order) !! Elems(w.committed)
    ensures forall t :: t in list ==> t !in w.height
    ensures var height := w.height + AtHeight(w.order, w.pool.tip + 1);
      && height.Keys == Elems(w.committed + w.order)
      && forall t :: t in height ==> height[t] <= w.pool.tip + 1
  {
    assert Elems(w.committed + w.order) == Elems(w.committed) + Elems(w.order);
    assert forall t :: t in list ==> t in Elems(list);
  }

  lemma RollbackTold(cfg: Config, w: World)
    requires HeightsKnown(w) && Told(w.pool.stream, w.pool.tip, w.height)
    ensures var w' := RolledBackWorld(w);
      HeightsKnown(w') && Told(w'.pool.stream, w'.pool.tip, w'.height)
  {
    var gone := Descendants(w.pool.txs.parents, BlockTxs(w.pool));
    assert RolledBackWorld(w).pool.stream == w.pool.stream.Publish(TransactionsReverted(gone));
    PublishTells(w.pool.stream, TransactionsReverted(gone), w.pool.tip, w.height);
  }

  lemma AddTold(cfg: Config, w: World, tx: Tx)
    requires HeightsKnown(w) && Told(w.pool.stream, w.pool.tip, w.height)
    ensures var w' := Admitted(w, tx);
      HeightsKnown(w') && Told(w'.pool.stream, w'.pool.tip, w'.height)
  {
    assert Admitted(w, tx).pool.stream == w.pool.stream.Publish(EventOf(tx));
    PublishTells(w.pool.stream, EventOf(tx), w.pool.tip, w.height);
  }

  lemma CommitIs(cfg: Config, w: World)
    requires WorldInv(cfg, w) && w.pool.block.Some? && |w.pool.core.blocks| <= w.pool.tip
    ensures Next(cfg, w, CommitBlock) == Some(Committed(cfg, w, AfterCommit(cfg, w.pool)))
  {
    CommitBlockOutcome(cfg, w.pool);
    hide Inv, AfterCommit, MempoolModel.CommitBlock, History;
    NextCommit(cfg, w, AfterCommit(cfg, w.pool));
  }

  lemma RollbackIs(cfg: Config, w: World)
    requires WorldInv(cfg, w) && w.pool.block.Some? && |w.pool.core.blocks| <= w.pool.tip
    ensures Next(cfg, w, RollbackBlock) == Some(RolledBackWorld(w))
  {
    RollbackBlockOutcome(cfg, w.pool);
    hide Inv, AfterRollback, MempoolModel.RollbackBlock, History;
  }

  lemma StepTold(cfg: Config, w: World, a: Action)
    requires ToldInv(cfg, w) && Allowed(cfg, w, a)
    ensures Next(cfg, w, a).Some? && ToldInv(cfg, Next(cfg, w, a).value)
  {
    StepKeepsWorld(cfg, w, a);
    assert a.CommitBlock? || a.RollbackBlock? ==> w.pool.block.Some?;
    assert w.pool.stream.InSync() && w.pool.stream.tip == w.pool.tip;
    assert |w.pool.core.blocks| <= w.pool.tip;
    if a.Add? {
      AddNext(cfg, w, a.tx);
    }
    hide WorldInv, Next, Told, Allowed, AfterCommit, Committed, RolledBackWorld, Admitted, Quiet;
    match a
    case Add(tx) => AddTold(cfg, w, tx);
    case CommitBlock =>
      CommitIs(cfg, w);
      CommitTold(cfg, w);
    case RollbackBlock =>
      RollbackIs(cfg, w);
      RollbackTold(cfg, w);
    case _ =>
      OtherStream(cfg, w, a);
      QuietTells(w.pool.stream, Next(cfg, w, a).value.pool.stream, w.height);
  }

  lemma {:induction false} RunTold(cfg: Config, w: World, actions: seq<Action>, w': World)
    requires ToldInv(cfg, w) && Run(cfg, w, actions, w')
    ensures ToldInv(cfg, w')
    decreases |actions|
  {
    hide ToldInv, Next, Allowed;
    if actions != [] {
      StepTold(cfg, w, actions[0]);
      RunTold(cfg, Next(cfg, w, actions[0]).value, actions[1..], w');
    }
  }

  /** Over every run, a live subscription was told of the newest blocks up to the tip without a gap,
      and for each of them exactly the transactions that went into it. */
  lemma {:induction false} BlocksAreReported(cfg: Config, tip: nat, actions: seq<Action>, w: World)
    requires Injective(cfg.idOf) && Run(cfg, Start(tip), actions, w)
    requires w.pool.stream.channel.Some?
    ensures ReportAll(Blocks(w.pool.stream.channel.value.sent), w.pool.tip, w.height)
  {
    StartInv(cfg, tip);
    RunTold(cfg, Start(tip), actions, w);
  }
}
