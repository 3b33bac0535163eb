/** The mempool's event stream: the tracker of uncommitted transaction events, kept for late
    subscribers, and the bounded channel to the current subscriber. */
module Subscriptions {
  import opened Prelude

  datatype Event =
    | Added(id: nat, nullifiers: seq<nat>, details: nat)
    | BlockCommitted(number: nat, txs: seq<nat>)
    | TransactionsReverted(reverted: set<nat>)

  /** What a subscriber knows to be uncommitted, oldest first, after one more event. */
  function Apply(known: seq<Event>, e: Event): seq<Event> {
    match e
    case Added(_, _, _) => known + [e]
    case BlockCommitted(_, txs) => Drop(known, Elems(txs))
    case TransactionsReverted(txs) => Drop(known, txs)
  }

  function Fold(events: seq<Event>): seq<Event> {
    if events == [] then [] else Apply(Fold(events[..|events| - 1]), events[|events| - 1])
  }

  lemma {:induction false} FoldPush(events: seq<Event>, e: Event)
    ensures Fold(events + [e]) == Apply(Fold(events), e)
  {
    assert (events + [e])[..|events|] == events;
  }

  /** The events that are not about the given transactions. */
  function Drop(events: seq<Event>, gone: set<nat>): (r: seq<Event>)
    ensures forall e {:trigger e in r} :: e in r <==> e in events && !(e.Added? && e.id in gone)
  {
    if events == [] then [] else
      var rest := Drop(events[..|events| - 1], gone);
      var e := events[|events| - 1];
      assert forall x :: x in events <==> x in events[..|events| - 1] || x == e;
      if e.Added? && e.id in gone then rest else rest + [e]
  }

  lemma {:induction false} DropPush(events: seq<Event>, e: Event, gone: set<nat>)
    ensures Drop(events + [e], gone) ==
            if e.Added? && e.id in gone then Drop(events, gone) else Drop(events, gone) + [e]
  {
    assert (events + [e])[..|events|] == events;
  }

  lemma {:induction false} DropAppend(a: seq<Event>, b: seq<Event>, gone: set<nat>)
    ensures Drop(a + b, gone) == Drop(a, gone) + Drop(b, gone)
    decreases |b|
  {
    if b == [] {
      assert a + b == a;
    } else {
      var f, e := b[..|b| - 1], b[|b| - 1];
      assert a + b == a + f + [e] && b == f + [e];
      DropPush(a + f, e, gone);
      DropPush(f, e, gone);
      DropAppend(a, f, gone);
    }
  }

  lemma {:induction false} DropNone(events: seq<Event>, gone: set<nat>)
    requires forall e :: e in events ==> e.Added? && e.id !in gone
    ensures Drop(events, gone) == events
    decreases |events|
  {
    if events != [] {
      var f, e := events[..|events| - 1], events[|events| - 1];
      assert events == f + [e];
      DropPush(f, e, gone);
      DropNone(f, gone);
    }
  }

  lemma {:induction false} DropTwice(events: seq<Event>, a: set<nat>, b: set<nat>)
    ensures Drop(Drop(events, a), b) == Drop(events, a + b)
    decreases |events|
  {
    if events != [] {
      var f, e := events[..|events| - 1], events[|events| - 1];
      assert events == f + [e];
      DropPush(f, e, a);
      DropPush(f, e, a + b);
      DropPush(Drop(f, a), e, b);
      DropTwice(f, a, b);
    }
  }

  function EventIds(events: seq<Event>): set<nat> {
    set e | e in events && e.Added? :: e.id
  }

  // ---------------------------------------------------------------------------------------------
  // The tracker

  /** The values of an ordered map, by ascending key. */
  function InOrder(m: map<nat, Event>): (r: seq<Event>)
    ensures forall e {:trigger e in r} :: e in r <==> exists k :: k in m && m[k] == e
    decreases |m|
  {
    if m == map[] then [] else
      var k := Min(m.Keys);
      assert forall j :: j in m <==> j == k || j in m - {k};
      assert (m - {k}).Keys == m.Keys - {k};
      [m[k]] + InOrder(m - {k})
  }

  /** A value stored above every key comes last. */
  lemma {:induction false} InOrderPush(m: map<nat, Event>, k: nat, e: Event)
    requires forall j :: j in m ==> j < k
    ensures InOrder(m[k := e]) == InOrder(m) + [e]
    decreases |m|
  {
    var m' := m[k := e];
    if m == map[] {
      assert m' == map[k := e];
      assert m' - {k} == map[];
      assert Min(m'.Keys) == k;
    } else {
      var j := Min(m.Keys);
      LeastIsMin(m'.Keys, j);
      assert m' - {j} == (m - {j})[k := e];
      assert (m - {j}).Keys == m.Keys - {j};
      InOrderPush(m - {j}, k, e);
    }
  }

  /** Removing a key removes its value and keeps the order of the others. */
  lemma {:induction false} InOrderRemove(m: map<nat, Event>, k: nat)
    requires k in m && m[k].Added?
    requires forall j :: j in m && j != k ==> m[j].Added? && m[j].id != m[k].id
    ensures InOrder(m - {k}) == Drop(InOrder(m), {m[k].id})
    decreases |m|
  {
    var j := Min(m.Keys);
    assert (m - {j}).Keys == m.Keys - {j};
    DropAppend([m[j]], InOrder(m - {j}), {m[k].id});
    assert [] + [m[j]] == [m[j]];
    DropPush([], m[j], {m[k].id});
    if j == k {
      DropNone(InOrder(m - {j}), {m[k].id});
    } else {
      InOrderRemove(m - {j}, k);
      assert m - {k} - {j} == m - {j} - {k};
      LeastIsMin((m - {k}).Keys, j);
    }
  }

  class InflightTransactions {
    var txs: map<nat, Event>
    var index: map<nat, nat>

    /** The uncommitted transaction events in the order they were added. */
    ghost function Log(): seq<Event>
      reads this
    {
      InOrder(txs)
    }

    /** `index` is the inverse of `txs`. */
    ghost predicate Valid()
      reads this
    {
      var valid :=
        && (forall k :: k in txs ==> txs[k].Added? && txs[k].id in index && index[txs[k].id] == k)
        && (forall id :: id in index ==> index[id] in txs && txs[index[id]].id == id);
      valid
    }

    constructor ()
      ensures Valid() && Log() == []
    {
      txs, index := map[], map[];
    }

    lemma IndexedIds()
      requires Valid()
      ensures index.Keys == EventIds(Log())
      ensures forall e :: e in Log() ==> e.Added?
    {
      forall id | id in index ensures id in EventIds(Log()) {
        assert txs[index[id]] in Log();
      }
    }

    /** Appends an event. The two panics of the node are preconditions. */
    method Insert(tx: Event)
      requires Valid()
      requires tx.Added? && tx.id !in EventIds(Log())
      modifies this
      ensures Valid()
      ensures Log() == old(Log()) + [tx]
    {
      IndexedIds();
      var idx := NextKey();
      assert tx.id !in index;  // "transaction event already exists in tracker"
      InOrderPush(txs, idx, tx);
      index := index[tx.id := idx];
      txs := txs[idx := tx];
    }

    /** One more than the last key, which may have been used before. */
    method NextKey() returns (idx: nat)
      ensures forall k :: k in txs ==> k < idx
    {
      idx := 0;
      var todo := txs.Keys;
      while todo != {}
        invariant todo <= txs.Keys
        invariant forall k :: k in txs && k !in todo ==> k < idx
        decreases todo
      {
        var k := Min(todo);
        idx := if k < idx then idx else k + 1;
        todo := todo - {k};
      }
    }

    method Remove(tx: nat)
      requires Valid()
      requires tx in EventIds(Log())
      modifies this
      ensures Valid()
      ensures Log() == Drop(old(Log()), {tx})
    {
      assert tx in index by {  // "transaction to remove should be tracked"
        IndexedIds();
      }
      var idx := index[tx];
      InOrderRemove(txs, idx);
      hide InOrder, Drop, EventIds;
      index := index - {tx};
      txs := txs - {idx};
    }
  }

  // ---------------------------------------------------------------------------------------------
  // The channel and the provider

  /** A bounded channel: everything sent so far, how much of it was received, and whether the
      receiver still exists. */
  datatype Channel = Channel(capacity: nat, sent: seq<Event>, received: nat, open: bool) {
    function TrySend(e: Event): Option<Channel> {
      if open && |sent| - received < capacity then Some(this.(sent := sent + [e])) else None
    }
  }

  function Capacity(inflight: nat): nat {
    if inflight * 2 < 1024 then 1024 else inflight * 2
  }

  datatype Stream = Stream(channel: Option<Channel>, tip: nat, log: seq<Event>) {

    /** If sending fails the subscription ends. */
    function Send(e: Event): Stream {
      this.(channel := if channel.None? then None else channel.value.TrySend(e))
    }

    function Publish(e: Event): Stream {
      this.(log := Apply(log, e)).Send(e)
    }

    /** A fresh channel that already holds every uncommitted event, in order. */
    function Subscribe(tip: nat): Result<Stream, nat> {
      if this.tip != tip then Err(this.tip)
      else Ok(this.(channel := Some(Channel(Capacity(|log|), log, 0, true))))
    }

    function CommitBlock(number: nat, txs: seq<nat>): Stream {
      this.(tip := number).Publish(BlockCommitted(number, txs))
    }

    /** The subscriber takes an event, or goes away. */
    function Receive(): Stream {
      if channel.Some? && channel.value.received < |channel.value.sent|
      then this.(channel := Some(channel.value.(received := channel.value.received + 1)))
      else this
    }

    function Close(): Stream {
      if channel.Some? then this.(channel := Some(channel.value.(open := false))) else this
    }

    /** What a live subscriber was sent amounts to exactly the uncommitted transactions. */
    ghost predicate InSync() {
      var inSync :=
        && (forall e :: e in log ==> e.Added?)
        && (channel.Some? ==> Fold(channel.value.sent) == log
                              && channel.value.received <= |channel.value.sent|);
      inSync
    }
  }

  lemma {:induction false} FoldAdded(events: seq<Event>)
    requires forall e :: e in events ==> e.Added?
    ensures Fold(events) == events
    decreases |events|
  {
    if events != [] {
      var f, e := events[..|events| - 1], events[|events| - 1];
      assert events == f + [e];
      FoldAdded(f);
    }
  }

  lemma PublishKeepsSync(s: Stream, e: Event)
    requires s.InSync()
    ensures s.Publish(e).InSync()
  {
    if s.channel.Some? {
      FoldPush(s.channel.value.sent, e);
    }
  }

  lemma SubscribeSyncs(s: Stream, tip: nat)
    requires s.InSync() && s.Subscribe(tip).Ok?
    ensures s.Subscribe(tip).value.InSync()
  {
    FoldAdded(s.log);
  }

  /** Whoever is not at the tip is told the tip. A new subscriber can lag by 1024 events, or by as
      many again as were replayed. */
  lemma SubscribeLeavesRoom(s: Stream, tip: nat)
    ensures tip != s.tip ==> s.Subscribe(tip) == Err(s.tip)
    ensures tip == s.tip ==>
      var c := s.Subscribe(tip).value.channel.value;
      && c.open && c.received == 0 && c.sent == s.log
      && c.capacity >= 1024 && c.capacity - |c.sent| >= |s.log|
      && (c.capacity == 1024 || c.capacity - |c.sent| == |s.log|)
  {
  }

  class SubscriptionProvider {
    var subscription: Option<Channel>
    var chainTip: nat
    const inflightTxs: InflightTransactions

    ghost function Model(): Stream
      reads this, inflightTxs
    {
      Stream(subscription, chainTip, inflightTxs.Log())
    }

    ghost predicate Valid()
      reads this, inflightTxs
    {
      inflightTxs.Valid() && Model().InSync()
    }

    constructor (chainTip: nat)
      ensures fresh(inflightTxs)
      ensures Valid()
      ensures Model() == Stream(None, chainTip, [])
    {
      this.chainTip, subscription := chainTip, None;
      inflightTxs := new InflightTransactions();
    }

    /** Sends an event to the subscriber, if any, cancelling the subscription on failure. */
    method SendEvent(e: Event)
      modifies `subscription
      ensures subscription == old(Model()).Send(e).channel
    {
      if subscription.None? {
        return;
      }
      subscription := subscription.value.TrySend(e);
    }

    /** Starts a subscription by replaying the uncommitted events. The replay never fills the
        channel. */
    method Subscribe(tip: nat) returns (r: Outcome<nat>)
      requires Valid()
      modifies this
      ensures Valid()
      ensures Model() == old(Model()).Subscribe(tip).Else(old(Model()))
      ensures r == old(Model()).Subscribe(tip).Report()
      ensures r.Pass? ==> subscription.Some?
    {
      if chainTip != tip {
        return Fail(chainTip);
      }
      SubscribeSyncs(Model(), tip);
      var log := InOrder(inflightTxs.txs);
      subscription := Some(Channel(Capacity(|log|), [], 0, true));
      for i := 0 to |log|
        invariant subscription == Some(Channel(Capacity(|log|), log[..i], 0, true))
        invariant chainTip == old(chainTip)
      {
        assert log[..i + 1] == log[..i] + [log[i]];
        SendEvent(log[i]);
      }
      assert log[..|log|] == log;
      r := Pass;
    }

    method TransactionAdded(e: Event)
      requires Valid()
      requires e.Added? && e.id !in EventIds(Model().log)
      modifies this, inflightTxs
      ensures Valid()
      ensures Model() == old(Model()).Publish(e)
    {
      PublishKeepsSync(Model(), e);
      inflightTxs.Insert(e);
      SendEvent(e);
    }

    method CommitBlock(number: nat, txs: seq<nat>)
      requires Valid()
      requires NoDup(txs) && Elems(txs) <= EventIds(Model().log)
      modifies this, inflightTxs
      ensures Valid()
      ensures Model() == old(Model()).CommitBlock(number, txs)
    {
      PublishKeepsSync(Model().(tip := number), BlockCommitted(number, txs));
      chainTip := number;
      RemoveAll(txs);
      SendEvent(BlockCommitted(number, txs));
    }

    method RemoveAll(txs: seq<nat>)
      requires inflightTxs.Valid()
      requires NoDup(txs) && Elems(txs) <= EventIds(inflightTxs.Log())
      modifies inflightTxs
      ensures inflightTxs.Valid()
      ensures inflightTxs.Log() == Drop(old(inflightTxs.Log()), Elems(txs))
    {
      ghost var log := inflightTxs.Log();
      inflightTxs.IndexedIds();
      DropNone(log, Elems(txs[..0]));
      for i := 0 to |txs|
        invariant inflightTxs.Valid()
        invariant inflightTxs.Log() == Drop(log, Elems(txs[..i]))
      {
        StillTracked(log, txs, i);
        inflightTxs.Remove(txs[i]);
        DropTwice(log, Elems(txs[..i]), {txs[i]});
        assert Elems(txs[..i + 1]) == Elems(txs[..i]) + {txs[i]};
      }
      assert txs[..|txs|] == txs;
    }

    method TxsReverted(txs: set<nat>)
      requires Valid()
      requires txs <= EventIds(Model().log)
      modifies this, inflightTxs
      ensures Valid()
      ensures Model() == old(Model()).Publish(TransactionsReverted(txs))
    {
      PublishKeepsSync(Model(), TransactionsReverted(txs));
      RemoveSet(txs);
      SendEvent(TransactionsReverted(txs));
    }

    method RemoveSet(txs: set<nat>)
      requires inflightTxs.Valid()
      requires txs <= EventIds(inflightTxs.Log())
      modifies inflightTxs
      ensures inflightTxs.Valid()
      ensures inflightTxs.Log() == Drop(old(inflightTxs.Log()), txs)
    {
      ghost var log := inflightTxs.Log();
      inflightTxs.IndexedIds();
      DropNone(log, {});
      var todo := txs;
      ghost var done: set<nat> := {};
      while todo != {}
        invariant todo !! done && todo + done == txs
        invariant inflightTxs.Valid()
        invariant inflightTxs.Log() == Drop(log, done)
        decreases todo
      {
        var tx := Min(todo);
        KeepsTracked(log, done, tx);
        inflightTxs.Remove(tx);
        DropTwice(log, done, {tx});
        todo := todo - {tx};
        done := done + {tx};
      }
      assert done == txs;
    }

    /** The consumer's side of the channel. */
    method Receive()
      requires Valid()
      modifies `subscription
      ensures Valid()
      ensures Model() == old(Model()).Receive()
    {
      if subscription.Some? && subscription.value.received < |subscription.value.sent| {
        subscription :=
          Some(subscription.value.(received := subscription.value.received + 1));
      }
    }

    method Close()
      requires Valid()
      modifies `subscription
      ensures Valid()
      ensures Model() == old(Model()).Close()
    {
      if subscription.Some? {
        subscription := Some(subscription.value.(open := false));
      }
    }
  }

  lemma {:induction false} KeepsTracked(log: seq<Event>, done: set<nat>, tx: nat)
    requires tx in EventIds(log) && tx !in done
    ensures tx in EventIds(Drop(log, done))
  {
    var e :| e in log && e.Added? && e.id == tx;
    assert e in Drop(log, done);
  }

  lemma {:induction false} StillTracked(log: seq<Event>, txs: seq<nat>, i: nat)
    requires i < |txs| && NoDup(txs) && Elems(txs) <= EventIds(log)
    ensures txs[i] in EventIds(Drop(log, Elems(txs[..i])))
  {
    assert txs[i] in Elems(txs) && txs[i] !in txs[..i];
    KeepsTracked(log, Elems(txs[..i]), txs[i]);
  }
}
