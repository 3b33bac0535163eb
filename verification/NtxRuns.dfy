/** What holds over every run of the network transaction builder, and exactly how the next event
    can fail. */
module NtxRuns {
  import opened Prelude
  import opened NtxAccounts
  import opened NtxStates
  import opened NtxSelection
  import opened NtxRevert
  import opened NtxInvariant

  /** What the builder hears from the mempool, and what it does on its own. `store` is what the
      store knows at the time. */
  datatype Event =
    | Added(store: nat -> Option<nat>, id: nat, update: Option<AccountUpdate>, notes: seq<Note>,
            nullifiers: seq<nat>)
    | Committed(txs: seq<nat>)
    | Reverted(txs: seq<nat>)
    | Selected
    | Failed(account: nat)

  function CommitAll(st: Ntx, order: seq<nat>): Option<Ntx>
    decreases |order|
  {
    if order == [] then Some(st) else
      var next := AfterCommit(st, order[0]);
      if next.None? then None else CommitAll(next.value, order[1..])
  }

  function AfterSelect(st: Ntx): Option<Ntx> {
    var found := Search(st.accounts, st.busy, st.queue, |st.queue|);
    if found.None? then None else
      Some(st.(accounts := found.value.accounts, queue := found.value.queue,
               busy := st.busy +
                 if found.value.chosen.Some? then {found.value.chosen.value} else {}))
  }

  /** `None` is a panic, or an unknown account, which ends the builder as well. */
  function Handle(apply: ApplyDelta, st: Ntx, ev: Event): Option<Ntx> {
    match ev
    case Added(store, id, update, notes, ns) =>
      var added := AfterAdd(apply, store, st, id, update, notes, ns);
      if added.Done? then Some(added.state) else None
    case Committed(txs) => CommitAll(st, txs)
    case Reverted(txs) => RevertAll(st, txs)
    case Selected => AfterSelect(st)
    case Failed(account) => Some(st.(busy := st.busy - {account}))
  }

  /** With a transaction, those that created the notes it consumed are committed too, or were
      before. A block lists its transactions by batch id, so that the order says nothing. */
  ghost predicate CreatorsIncluded(txs: map<nat, Impact>, order: seq<nat>) {
    forall t, u :: t in order && t in txs && u in txs && u !in order ==>
      txs[u].notes !! txs[t].nullifiers
  }

  /** With a transaction, those that consumed its notes are reverted too. */
  ghost predicate Closed(txs: map<nat, Impact>, order: seq<nat>) {
    forall t, u :: t in order && t in txs && u in txs && u !in order ==>
      txs[t].notes !! txs[u].nullifiers
  }

  /** What the mempool and the chain see to: accounts and notes are created once, a block comes with
      everything it depends on, and a revert takes everything that depends on it along. */
  ghost predicate Allowed(st: Ntx, ev: Event) {
    match ev
    case Added(store, id, update, notes, ns) =>
      id !in st.txs ==> CreatesNew(st, update) && CreatesOnce(st.index.Keys, notes)
    case Committed(txs) => CreatorsIncluded(st.txs, txs)
    case Reverted(txs) => NoDup(txs) && Closed(st.txs, txs)
    case Selected => true
    case Failed(account) => true
  }

  // ---------------------------------------------------------------------------------------------
  // Lists of transactions

  /** Some tracked transaction of the list consumed a note that its account does not hold. */
  ghost predicate SomeLapsed(st: Ntx, order: seq<nat>) {
    exists t, n :: t in order && t in st.txs && n in st.txs[t].nullifiers && Lapsed(st, n)
  }

  /** Every note consumed in flight is held by its account, as long as the account is tracked. */
  ghost predicate NoneLapsed(st: Ntx) {
    forall n :: n in Consumed(st.txs) ==> !Lapsed(st, n)
  }

  /** The notes consumed by the tracked transactions of a list. */
  function SpentBy(txs: map<nat, Impact>, order: seq<nat>): set<nat> {
    set t, n | t in order && t in txs && n in txs[t].nullifiers :: n
  }

  /** Committing a list panics exactly when a tracked account does not hold a note that one of its
      transactions consumed, whatever the order. */
  lemma {:induction false} CommitAllIsExact(apply: ApplyDelta, st: Ntx, order: seq<nat>)
    requires WithinBlock(apply, st)
    ensures CommitAll(st, order).None? <==> SomeLapsed(st, order)
    ensures CommitAll(st, order).Some? ==>
      var st' := CommitAll(st, order).value;
      && WithinBlock(apply, st') && st'.accounts.Keys == st.accounts.Keys
      && st'.txs == st.txs - Elems(order)
      && st'.index == st.index - SpentBy(st.txs, order)
      && (NoneLapsed(st) ==> NoneLapsed(st'))
    decreases |order|
  {
    hide WithinBlock, Lapsed, AfterCommit;
    if order == [] {
      assert st.txs - Elems(order) == st.txs;
      assert SpentBy(st.txs, order) == {} && st.index - {} == st.index;
    } else {
      var t, rest := order[0], order[1..];
      assert order == [t] + rest;
      assert Elems(order) == {t} + Elems(rest);
      if t !in st.txs {
        Untracked(st, t);
        CommitAllIsExact(apply, st, rest);
        assert SomeLapsed(st, order) <==> SomeLapsed(st, rest);
        assert SpentBy(st.txs, order) == SpentBy(st.txs, rest);
        assert st.txs - Elems(rest) == st.txs - Elems(order);
      } else {
        CommitIsExact(apply, st, t);
        if AfterCommit(st, t).None? {
          assert t in order;
        } else {
          var st' := AfterCommit(st, t).value;
          CommitAllIsExact(apply, st', rest);
          LapsedLater(apply, st, st', t, rest);
          SpentLater(st.txs, st.index, t, rest);
        }
      }
    }
  }

  lemma SpentLater(txs: map<nat, Impact>, index: map<nat, nat>, t: nat, rest: seq<nat>)
    requires t in txs
    ensures (txs - {t}) - Elems(rest) == txs - Elems([t] + rest)
    ensures (index - txs[t].nullifiers) - SpentBy(txs - {t}, rest) ==
            index - SpentBy(txs, [t] + rest)
  {
    assert Elems([t] + rest) == {t} + Elems(rest);
    var spent, later := SpentBy(txs, [t] + rest), SpentBy(txs - {t}, rest);
    forall n | n in spent ensures n in txs[t].nullifiers + later {
      var u :| u in [t] + rest && u in txs && n in txs[u].nullifiers;
      assert u != t ==> u in rest && u in txs - {t};
    }
    forall n | n in txs[t].nullifiers + later ensures n in spent {
      if n in later {
        var u :| u in rest && u in txs - {t} && n in (txs - {t})[u].nullifiers;
        assert u in [t] + rest && n in txs[u].nullifiers;
      } else {
        assert t in [t] + rest && n in txs[t].nullifiers;
      }
    }
    assert spent == txs[t].nullifiers + later;
  }

  /** Once a whole block is committed everything is in order again exactly when all tracked creators
      of the notes it consumed are in it. */
  lemma {:induction false} BlockIsExact(apply: ApplyDelta, st: Ntx, order: seq<nat>)
    requires Inv(apply, st)
    ensures CommitAll(st, order).None? <==> SomeLapsed(st, order)
    ensures CommitAll(st, order).Some? ==>
      var st' := CommitAll(st, order).value;
      && (Inv(apply, st') <==> CreatorsIncluded(st.txs, order))
      && st'.accounts.Keys == st.accounts.Keys
      && (NoneLapsed(st) ==> NoneLapsed(st'))
  {
    InvIs(apply, st);
    hide Inv, WithinBlock, SomeLapsed, NoneLapsed;
    CommitAllIsExact(apply, st, order);
    if CommitAll(st, order).Some? {
      InvIs(apply, CommitAll(st, order).value);
      IndexedAfter(st.index.Keys, st.txs, order) by {
        assert ConsumedOnce(st.txs) by { InvTracked(apply, st); }
      }
    }
  }

  lemma IndexedAfter(index: set<nat>, txs: map<nat, Impact>, order: seq<nat>)
    requires Indexed(index, txs) && ConsumedOnce(txs)
    ensures Indexed(index - SpentBy(txs, order), txs - Elems(order)) <==>
            CreatorsIncluded(txs, order)
  {
    var left, spent := txs - Elems(order), SpentBy(txs, order);
    if Indexed(index - spent, left) {
      forall t, u, n | t in order && t in txs && u in txs && u !in order && n in txs[t].nullifiers
        ensures n !in txs[u].notes
      {
        assert n in spent && u in left;
      }
    }
    if CreatorsIncluded(txs, order) {
      forall u | u in left ensures left[u].notes + left[u].nullifiers <= index - spent {
        forall n | n in spent ensures n !in txs[u].notes + txs[u].nullifiers {
          var t :| t in order && t in txs && n in txs[t].nullifiers;
          assert t != u;
        }
      }
    }
  }

  lemma Untracked(st: Ntx, t: nat)
    requires t !in st.txs
    ensures AfterCommit(st, t) == Some(st) && AfterRevert(st, t) == Some(st)
  {
  }

  /** Once a transaction is committed, the same notes have lapsed as before. */
  lemma LapsedLater(apply: ApplyDelta, st: Ntx, st': Ntx, t: nat, rest: seq<nat>)
    requires WithinBlock(apply, st') && t in st.txs && st'.txs == st.txs - {t}
    requires forall n :: n in st'.index ==> (Lapsed(st', n) <==> Lapsed(st, n))
    requires forall n :: n in st.txs[t].nullifiers ==> !Lapsed(st, n)
    ensures SomeLapsed(st', rest) <==> SomeLapsed(st, [t] + rest)
    ensures NoneLapsed(st) ==> NoneLapsed(st')
  {
    ConsumedFindable(st'.index.Keys, st'.txs);
    assert forall u, n :: u in st'.txs && n in st'.txs[u].nullifiers ==> n in st'.index;
    hide Lapsed, WithinBlock, Midway, Findable;
    if SomeLapsed(st, [t] + rest) {
      var u, n :| u in [t] + rest && u in st.txs && n in st.txs[u].nullifiers && Lapsed(st, n);
      assert u in rest && u in st'.txs && n in st'.txs[u].nullifiers;
    }
    if SomeLapsed(st', rest) {
      var u, n :| u in rest && u in st'.txs && n in st'.txs[u].nullifiers && Lapsed(st', n);
      assert u in [t] + rest && u in st.txs && n in st.txs[u].nullifiers;
    }
  }

  lemma {:induction false} RevertAllKeeps(apply: ApplyDelta, st: Ntx, order: seq<nat>)
    requires Inv(apply, st) && NoDup(order) && Closed(st.txs, order)
    requires RevertAll(st, order).Some?
    ensures Inv(apply, RevertAll(st, order).value)
    ensures RevertAll(st, order).value.accounts.Keys <= st.accounts.Keys
    ensures NoneLapsed(st) ==> NoneLapsed(RevertAll(st, order).value)
    decreases |order|
  {
    hide Inv, Lapsed, AfterRevert;
    if order != [] {
      var t, rest := order[0], order[1..];
      assert order == [t] + rest;
      NoDupSplit([t], rest);
      if t !in st.txs {
        Untracked(st, t);
        assert Closed(st.txs, rest);
        RevertAllKeeps(apply, st, rest);
      } else {
        ConsumersAreFirst(apply, st, t, rest);
        RevertIsExact(apply, st, t);
        var st' := AfterRevert(st, t).value;
        assert Closed(st'.txs, rest) by {
          assert forall u :: u in order <==> u == t || u in rest;
        }
        RevertAllKeeps(apply, st', rest);
        LapsesLater(apply, st, st', t);
      }
    }
  }

  lemma {:induction false} ConsumersAreFirst(apply: ApplyDelta, st: Ntx, t: nat, rest: seq<nat>)
    requires Inv(apply, st) && t in st.txs && NoDup([t] + rest) && Closed(st.txs, [t] + rest)
    requires RevertAll(st, [t] + rest).Some?
    ensures ConsumersReverted(st.txs, t)
  {
    InvTracked(apply, st);
    hide Inv, Tracked;
    RevertPanicsIffCreatorFirst(st, [t] + rest);
    ConsFirst(st.txs, t, rest);
    assert t in [t] + rest;
  }

  lemma LapsesLater(apply: ApplyDelta, st: Ntx, st': Ntx, t: nat)
    requires Inv(apply, st) && Inv(apply, st') && t in st.txs && st'.txs == st.txs - {t}
    requires forall n :: n !in st.txs[t].nullifiers ==> n in st'.index ==> Lapsed(st', n) ==>
                         Lapsed(st, n)
    ensures NoneLapsed(st) ==> NoneLapsed(st')
  {
    ConsumedIndexed(st'.index.Keys, st'.txs);
    ConsumedLess(st.txs, t);
    hide Lapsed, Midway, Consumed, ConsumedOnce, CreatedOnce, Indexed;
  }

  // ---------------------------------------------------------------------------------------------
  // One event

  /** No account comes back that had been dropped while a note of its was consumed in flight. */
  ghost predicate NobodyReturns(st: Ntx, st': Ntx) {
    forall n :: n in Consumed(st.txs) && n in st.index && st.index[n] in st'.accounts ==>
      st.index[n] in st.accounts
  }

  /** Every event keeps the state in order, and consumed notes are held by their accounts as long as
      nobody returns. */
  lemma HandleKeeps(apply: ApplyDelta, st: Ntx, ev: Event)
    requires Inv(apply, st) && Allowed(st, ev) && Handle(apply, st, ev).Some?
    ensures var st' := Handle(apply, st, ev).value;
      && Inv(apply, st')
      && (NoneLapsed(st) ==> (NoneLapsed(st') <==> NobodyReturns(st, st')))
  {
    hide Inv, Lapsed, AfterAdd, CreatesOnce, CreatesNew;
    match ev
    case Added(store, id, update, notes, ns) =>
      if id in st.txs {
        KnownAlready(apply, store, st, id, update, notes, ns);
      } else {
        AddKeeps(apply, store, st, id, update, notes, ns);
        var st' := AfterAdd(apply, store, st, id, update, notes, ns).state;
        LapsedByAdding(apply, st, st', Elems(ns) * st'.index.Keys);
      }
    case Committed(txs) => BlockIsExact(apply, st, txs);
    case Reverted(txs) => RevertAllKeeps(apply, st, txs);
    case Selected => SelectKeeps(apply, st);
    case Failed(account) => BusyKeeps(apply, st, st.busy - {account});
  }

  lemma KnownAlready(apply: ApplyDelta, store: nat -> Option<nat>, st: Ntx, id: nat,
                     update: Option<AccountUpdate>, notes: seq<Note>, ns: seq<nat>)
    requires id in st.txs
    ensures AfterAdd(apply, store, st, id, update, notes, ns) == Done(st)
  {
  }

  lemma LapsedByAdding(apply: ApplyDelta, st: Ntx, st': Ntx, now: set<nat>)
    requires Inv(apply, st)
    requires Consumed(st'.txs) == Consumed(st.txs) + now && now !! Consumed(st.txs)
    requires now <= st'.index.Keys
    requires forall n :: n in st.index ==> n in st'.index && st'.index[n] == st.index[n]
    requires forall q, n :: Retains(st'.accounts, q, n) <==>
      Retains(st.accounts, q, n) || (n in now && q == st'.index[n])
    ensures NoneLapsed(st) ==> (NoneLapsed(st') <==> NobodyReturns(st, st'))
  {
    ConsumedIndexed(st.index.Keys, st.txs);
    hide Inv, Consumed;
    forall n | n in Consumed(st'.txs) && NoneLapsed(st)
      ensures Lapsed(st', n) <==> n in Consumed(st.txs) && st.index[n] !in st.accounts &&
                                  st.index[n] in st'.accounts
    {
      if n in Consumed(st.txs) {
        assert !Lapsed(st, n);
      }
    }
  }

  lemma SelectKeeps(apply: ApplyDelta, st: Ntx)
    requires Inv(apply, st) && AfterSelect(st).Some?
    ensures var st' := AfterSelect(st).value;
      && Inv(apply, st') && st'.accounts.Keys <= st.accounts.Keys
      && (NoneLapsed(st) ==> NoneLapsed(st'))
  {
    hide Midway;
    SearchKeeps(apply, st, |st.queue|, st.txs, Consumed(st.txs));
    var found := Search(st.accounts, st.busy, st.queue, |st.queue|).value;
    var st' := AfterSelect(st).value;
    MidwayBusy(apply, st.(accounts := found.accounts, queue := found.queue), st'.busy, st.txs,
               Consumed(st.txs));
    assert st' == st.(accounts := found.accounts, queue := found.queue).(busy := st'.busy);
    hide Search, Consumed;
  }

  lemma MidwayBusy(apply: ApplyDelta, st: Ntx, busy: set<nat>, txs: map<nat, Impact>,
                   used: set<nat>)
    requires Midway(apply, st, txs, used)
    ensures Midway(apply, st.(busy := busy), txs, used)
  {
    hide Sane, Filed, Balanced;
  }

  lemma BusyKeeps(apply: ApplyDelta, st: Ntx, busy: set<nat>)
    requires Inv(apply, st)
    ensures var st' := st.(busy := busy); Inv(apply, st') && (NoneLapsed(st) <==> NoneLapsed(st'))
  {
    hide Midway;
    MidwayBusy(apply, st, busy, st.txs, Consumed(st.txs));
  }

  // ---------------------------------------------------------------------------------------------
  // Runs

  ghost predicate Leads(apply: ApplyDelta, st: Ntx, st': Ntx) {
    exists ev :: Allowed(st, ev) && Handle(apply, st, ev) == Some(st')
  }

  ghost predicate Run(apply: ApplyDelta, states: seq<Ntx>) {
    && states != [] && states[0] == Empty()
    && forall i :: 0 < i < |states| ==> Leads(apply, states[i - 1], states[i])
  }

  /** Over every run: each account has one state in flight for each tracked transaction that changed
      it, obtained from the committed one by the updates that survive; each of its notes is waiting
      or consumed, but not both; notes are created and consumed by one tracked transaction each, and
      whatever a tracked one created or consumed is in the index. */
  lemma {:induction false} RunInv(apply: ApplyDelta, states: seq<Ntx>)
    requires Run(apply, states)
    ensures Inv(apply, states[|states| - 1])
    decreases |states|
  {
    hide Inv, Handle;
    if |states| == 1 {
      EmptyInv(apply);
    } else {
      var n := |states| - 1;
      RunInv(apply, states[..n]);
      assert Leads(apply, states[n - 1], states[n]);
      var ev :| Allowed(states[n - 1], ev) && Handle(apply, states[n - 1], ev) == Some(states[n]);
      HandleKeeps(apply, states[n - 1], ev);
    }
  }

  /** How an event can fail, by the state it meets. */
  ghost predicate Fails(apply: ApplyDelta, st: Ntx, ev: Event)
    requires forall p :: p in st.accounts ==> st.accounts[p].Known()
  {
    match ev
    case Added(store, id, update, notes, ns) =>
      id !in st.txs &&
      (UnknownAccount(store, st, update) || DeltaRefused(apply, store, st, update) ||
       exists i :: 0 <= i < |ns| && NullifierRefused(store, st, update, notes, ns, i))
    case Committed(txs) => SomeLapsed(st, txs)
    case Reverted(txs) => !ConsumersFirst(st.txs, txs)
    case Selected => MeetsLost(st.accounts, st.busy, st.queue, |st.queue|)
    case Failed(account) => false
  }

  /** After every run, the next event fails exactly when it meets such a state. */
  lemma RunFails(apply: ApplyDelta, states: seq<Ntx>, ev: Event)
    requires Run(apply, states) && Allowed(states[|states| - 1], ev)
    ensures var st := states[|states| - 1];
      && (forall p :: p in st.accounts ==> st.accounts[p].Known())
      && (Handle(apply, st, ev).None? <==> Fails(apply, st, ev))
  {
    var st := states[|states| - 1];
    RunInv(apply, states);
    hide Run;
    KnownAccounts(apply, st);
    InvTracked(apply, st);
    hide Inv, Tracked;
    EventFails(apply, st, ev);
  }

  lemma EventFails(apply: ApplyDelta, st: Ntx, ev: Event)
    requires Inv(apply, st) && Tracked(st) && Allowed(st, ev)
    requires forall p :: p in st.accounts ==> st.accounts[p].Known()
    ensures Handle(apply, st, ev).None? <==> Fails(apply, st, ev)
  {
    hide Inv, Tracked, AfterAdd, SomeLapsed, UnknownAccount, DeltaRefused, NullifierRefused;
    hide MeetsLost, CreatesOnce, CreatesNew;
    match ev
    case Added(store, id, update, notes, ns) =>
      if id in st.txs {
        KnownAlready(apply, store, st, id, update, notes, ns);
      } else {
        AddFails(apply, store, st, id, update, notes, ns);
      }
    case Committed(txs) => BlockIsExact(apply, st, txs);
    case Reverted(txs) => RevertPanicsIffCreatorFirst(st, txs);
    case Selected => SearchFails(st.accounts, st.busy, st.queue, |st.queue|);
    case Failed(account) =>
  }

  /** As long as nobody returns, committing never fails. */
  lemma {:induction false} CommitsSucceed(apply: ApplyDelta, states: seq<Ntx>, txs: seq<nat>)
    requires Run(apply, states) && Allowed(states[|states| - 1], Committed(txs))
    requires forall i :: 0 < i < |states| ==> NobodyReturns(states[i - 1], states[i])
    ensures Handle(apply, states[|states| - 1], Committed(txs)).Some?
  {
    var st := states[|states| - 1];
    RunInv(apply, states);
    HeldThroughout(apply, states);
    hide Inv, Lapsed;
    BlockIsExact(apply, st, txs);
  }

  lemma {:induction false} HeldThroughout(apply: ApplyDelta, states: seq<Ntx>)
    requires Run(apply, states)
    requires forall i :: 0 < i < |states| ==> NobodyReturns(states[i - 1], states[i])
    ensures NoneLapsed(states[|states| - 1])
    decreases |states|
  {
    hide Handle, Lapsed;
    if |states| > 1 {
      var n := |states| - 1;
      HeldThroughout(apply, states[..n]);
      RunInv(apply, states[..n]);
      hide Inv;
      assert Leads(apply, states[n - 1], states[n]);
      var ev :| Allowed(states[n - 1], ev) && Handle(apply, states[n - 1], ev) == Some(states[n]);
      assert NobodyReturns(states[n - 1], states[n]);
      HandleKeeps(apply, states[n - 1], ev);
    }
  }

  // ---------------------------------------------------------------------------------------------
  // Fairness

  /** What happened, event by event. */
  ghost predicate Follows(apply: ApplyDelta, states: seq<Ntx>, events: seq<Event>) {
    && |states| == |events| + 1
    && forall i :: 0 <= i < |events| ==>
         Handle(apply, states[i], events[i]) == Some(states[i + 1])
  }

  function Selections(events: seq<Event>): nat {
    if events == [] then 0
    else (if events[0].Selected? then 1 else 0) + Selections(events[1..])
  }

  /** What a call of `select_candidate` picks. */
  function Picked(st: Ntx): Option<nat> {
    var found := Search(st.accounts, st.busy, st.queue, |st.queue|);
    if found.None? then None else found.value.chosen
  }

  lemma {:induction false} CommitKeepsQueue(st: Ntx, order: seq<nat>)
    requires CommitAll(st, order).Some?
    ensures CommitAll(st, order).value.queue == st.queue
    decreases |order|
  {
    if order != [] {
      var t := order[0];
      if t in st.txs {
        var committed := CommitDelta(st.(txs := st.txs - {t}), st.txs[t].delta).value;
        CommitNullifiersKeeps(committed, st.txs[t].nullifiers);
      }
      CommitKeepsQueue(AfterCommit(st, t).value, order[1..]);
    }
  }

  lemma {:induction false} RevertKeepsQueue(st: Ntx, order: seq<nat>)
    requires RevertAll(st, order).Some?
    ensures RevertAll(st, order).value.queue == st.queue
    decreases |order|
  {
    if order != [] {
      var t := order[0];
      if t in st.txs {
        var changed := RevertDelta(st.(txs := st.txs - {t}), st.txs[t].delta).value;
        RevertNotesIs(changed, st.txs[t].notes);
        RevertNullifiersIs(RevertNotes(changed, st.txs[t].notes).value, st.txs[t].nullifiers);
      }
      RevertKeepsQueue(AfterRevert(st, t).value, order[1..]);
    }
  }

  lemma AddGrowsQueue(apply: ApplyDelta, store: nat -> Option<nat>, st: Ntx, id: nat,
                      update: Option<AccountUpdate>, notes: seq<Note>, ns: seq<nat>)
    requires AfterAdd(apply, store, st, id, update, notes, ns).Done?
    ensures st.queue <= AfterAdd(apply, store, st, id, update, notes, ns).state.queue
  {
    if id !in st.txs {
      var updated := AddUpdate(apply, store, st, update).state;
      assert st.queue <= updated.queue;
      hide AddUpdate;
      AddNotesQueue(store, updated, notes);
      var noted := AddNotes(store, updated, notes);
      hide AddNotes;
      AddNullifiersCovers(noted, ns);
      hide AddNullifiers;
    }
  }

  /** Apart from selecting, no event moves anybody: newcomers join at the back. */
  lemma QueueGrows(apply: ApplyDelta, st: Ntx, ev: Event)
    requires Handle(apply, st, ev).Some? && !ev.Selected?
    ensures st.queue <= Handle(apply, st, ev).value.queue
  {
    hide AfterAdd, CommitAll, RevertAll;
    match ev
    case Added(store, id, update, notes, ns) =>
      AddGrowsQueue(apply, store, st, id, update, notes, ns);
    case Committed(txs) => CommitKeepsQueue(st, txs);
    case Reverted(txs) => RevertKeepsQueue(st, txs);
    case Failed(account) =>
  }

  /** Whatever else happens in between, an account that can be selected whenever a selection is made
      is selected by one of the next `position + 1` selections, even if others, or the account
      itself, are in the queue twice. */
  lemma {:induction false} NobodyStarves(apply: ApplyDelta, states: seq<Ntx>, events: seq<Event>,
                                         a: nat, position: nat)
    requires Follows(apply, states, events) && Selections(events) > position
    requires position < |states[0].queue| && states[0].queue[position] == a
    requires forall i :: 0 <= i < |events| && events[i].Selected? ==>
      Selectable(states[i].accounts, states[i].busy, a)
    ensures exists i :: 0 <= i < |events| && events[i].Selected? &&
                        Selections(events[..i]) <= position && Picked(states[i]) == Some(a)
    decreases |events|
  {
    var st, ev, later, rest := states[0], events[0], states[1..], events[1..];
    assert Handle(apply, st, ev) == Some(later[0]);
    assert Follows(apply, later, rest) by {
      forall i | 0 <= i < |rest| ensures Handle(apply, later[i], rest[i]) == Some(later[i + 1]) {
        assert Handle(apply, states[i + 1], events[i + 1]) == Some(states[i + 2]);
      }
    }
    assert forall i :: 0 <= i < |rest| ==> rest[i] == events[i + 1] && later[i] == states[i + 1];
    if ev.Selected? {
      assert Selectable(st.accounts, st.busy, a);
      SelectAdvances(st, a, position);
      if Picked(st) == Some(a) {
        assert events[0].Selected? && Selections(events[..0]) == 0;
      } else {
        var nearer :| 0 <= nearer < position && nearer < |later[0].queue| &&
                      later[0].queue[nearer] == a;
        NobodyStarves(apply, later, rest, a, nearer);
        StarvesNot(states, events, a, nearer, position);
      }
    } else {
      QueueGrows(apply, st, ev);
      NobodyStarves(apply, later, rest, a, position);
      StarvesNot(states, events, a, position, position);
    }
  }

  lemma SelectAdvances(st: Ntx, a: nat, position: nat)
    requires AfterSelect(st).Some? && Selectable(st.accounts, st.busy, a)
    requires position < |st.queue| && st.queue[position] == a
    ensures Picked(st) == Some(a) ||
            exists nearer :: 0 <= nearer < position && nearer < |AfterSelect(st).value.queue| &&
                             AfterSelect(st).value.queue[nearer] == a
  {
    SearchAdvances(st.accounts, st.busy, st.queue, |st.queue|, a, position);
    hide Search;
  }

  /** One event earlier. */
  lemma StarvesNot(states: seq<Ntx>, events: seq<Event>, a: nat, nearer: nat, position: nat)
    requires |states| == |events| + 1 && events != []
    requires nearer + (if events[0].Selected? then 1 else 0) <= position
    requires exists i ::
      && 0 <= i < |events| - 1 && events[1..][i].Selected?
      && Selections(events[1..][..i]) <= nearer && Picked(states[1..][i]) == Some(a)
    ensures exists i :: 0 <= i < |events| && events[i].Selected? &&
                        Selections(events[..i]) <= position && Picked(states[i]) == Some(a)
  {
    var i :| 0 <= i < |events| - 1 && events[1..][i].Selected? &&
             Selections(events[1..][..i]) <= nearer && Picked(states[1..][i]) == Some(a);
    assert events[..i + 1][1..] == events[1..][..i] && events[..i + 1][0] == events[0];
    assert states[i + 1] == states[1..][i] && events[i + 1] == events[1..][i];
  }

  // ---------------------------------------------------------------------------------------------
  // Runs after which an event fails

  /** A transaction that does no more than create an account. */
  lemma JustOpens(apply: ApplyDelta, store: nat -> Option<nat>, st: Ntx, id: nat, p: nat,
                  account: nat)
    requires id !in st.txs
    ensures AfterAdd(apply, store, st, id, Some(New(p, account)), [], []) ==
      Done(st.(accounts := st.accounts[p := Acc(None, [account], map[], map[])],
               queue := st.queue + [p], busy := st.busy - {p},
               txs := st.txs[id := Impact(Some(p), {}, {})]))
  {
    var after := AddUpdate(apply, store, st, Some(New(p, account))).state;
    OneByOne(store, after, Note(0, 0, 0), 0);
    assert {} * after.index.Keys == {};
    hide AddNotes, AddNullifiers, Nullifiers;
  }

  lemma Extend(apply: ApplyDelta, states: seq<Ntx>, ev: Event, st: Ntx)
    requires Run(apply, states) && Allowed(states[|states| - 1], ev)
    requires Handle(apply, states[|states| - 1], ev) == Some(st)
    ensures Run(apply, states + [st])
  {
    hide Allowed, Handle;
    var longer := states + [st];
    forall i | 0 < i < |longer| ensures Leads(apply, longer[i - 1], longer[i]) {
      if i < |states| {
        assert Leads(apply, states[i - 1], states[i]);
      }
    }
  }

  /** A note comes before its account does: it is put into the index but nowhere else, and
      consuming it panics. */
  lemma EarlyNotePanics(apply: ApplyDelta, store: nat -> Option<nat>, note: Note, account: nat)
    requires store(note.account).None?
    ensures var st1 := Ntx(map[], [], {}, map[1 := Impact(None, {note.nullifier}, {})],
                           map[note.nullifier := note.account]);
      var st2 := Ntx(map[note.account := Acc(None, [account], map[], map[])], [note.account], {},
                     st1.txs[2 := Impact(Some(note.account), {}, {})], st1.index);
      && Run(apply, [Empty(), st1, st2])
      && AfterAdd(apply, store, st2, 3, None, [], [note.nullifier]).Panic?
  {
    var n, p := note.nullifier, note.account;
    var st1 := Ntx(map[], [], {}, map[1 := Impact(None, {n}, {})], map[n := p]);
    var acc := Acc(None, [account], map[], map[]);
    var st2 := Ntx(map[p := acc], [p], {}, st1.txs[2 := Impact(Some(p), {}, {})], st1.index);
    JustCreates(apply, store, Empty(), 1, note);
    assert AddNote(store, Empty(), note) == st1.(txs := map[]);
    JustOpens(apply, store, st1, 2, p, account);
    assert st1.queue + [p] == st2.queue && st1.busy - {p} == st2.busy;
    assert st1.accounts[p := Acc(None, [account], map[], map[])] == st2.accounts;
    JustConsumes(apply, store, st2, 3, n);
    hide AfterAdd;
    var all := [Empty()] + [st1] + [st2];
    Extend(apply, [Empty()], Added(store, 1, None, [note], []), st1);
    Extend(apply, [Empty()] + [st1], Added(store, 2, Some(New(p, account)), [], []), st2);
    assert all == [Empty(), st1, st2];
  }

  /** An account is created, gets a note that is consumed, is dropped as its creation is reverted,
      and is created again. It has lost the note by then: committing the transaction that consumed
      it panics. */
  lemma ReturnedAccountPanics(apply: ApplyDelta, store: nat -> Option<nat>, note: Note,
                              account: nat)
    ensures exists states ::
      && Run(apply, states)
      && Allowed(states[|states| - 1], Committed([2, 3]))
      && Handle(apply, states[|states| - 1], Committed([2, 3])).None?
  {
    var n, p := note.nullifier, note.account;
    var acc := Acc(None, [account], map[], map[]);
    var opens, created, consumed :=
      Impact(Some(p), {}, {}), Impact(None, {n}, {}), Impact(None, {}, {n});
    var st1 := Ntx(map[p := acc], [p], {}, map[1 := opens], map[]);
    var st2 := Ntx(map[p := acc.AddNote(note)], [p], {}, map[1 := opens, 2 := created],
                   map[n := p]);
    var st3 := Ntx(map[p := acc.AddNote(note).AddNullifier(n)], [p], {},
                   map[1 := opens, 2 := created, 3 := consumed], map[n := p]);
    var st5 := Ntx(map[p := acc], [p, p], {}, map[2 := created, 3 := consumed, 4 := opens],
                   map[n := p]);
    OpensAndConsumes(apply, store, note, account, st1, st2, st3);
    hide Run, Handle, Allowed;
    DropsAndReturns(apply, store, [Empty(), st1, st2, st3], st3, st5, n, p, account);
    CommitsLost(apply, st5, n, p);
  }

  lemma DropsAndReturns(apply: ApplyDelta, store: nat -> Option<nat>, states: seq<Ntx>, st: Ntx,
                        st': Ntx, n: nat, p: nat, account: nat)
    requires states != [] && Run(apply, states) && states[|states| - 1] == st
    requires st.accounts.Keys == {p}
    requires st.accounts[p].committed.None? && |st.accounts[p].inflight| == 1
    requires st.txs == map[1 := Impact(Some(p), {}, {}), 2 := Impact(None, {n}, {}),
                           3 := Impact(None, {}, {n})]
    requires st.queue == [p] && st.busy == {} && st.index == map[n := p]
    requires st' == Ntx(map[p := Acc(None, [account], map[], map[])], [p, p], {},
                        map[2 := Impact(None, {n}, {}), 3 := Impact(None, {}, {n}),
                            4 := Impact(Some(p), {}, {})], map[n := p])
    ensures exists all :: Run(apply, all) && all[|all| - 1] == st'
  {
    var gone := Ntx(map[], [p], {}, st.txs - {1}, st.index);
    DropsAccount(apply, st, gone);
    assert gone.accounts[p := Acc(None, [account], map[], map[])] == st'.accounts;
    assert gone.queue + [p] == st'.queue && gone.busy - {p} == st'.busy;
    Reopens(apply, store, gone, st', p, account);
    hide Handle, Allowed;
    Extend(apply, states, Reverted([1]), gone);
    Extend(apply, states + [gone], Added(store, 4, Some(New(p, account)), [], []), st');
    var all := states + [gone] + [st'];
    assert all[|all| - 1] == st';
  }

  lemma Reopens(apply: ApplyDelta, store: nat -> Option<nat>, st: Ntx, st': Ntx, p: nat,
                account: nat)
    requires 4 !in st.txs && p !in st.accounts
    requires st'.accounts == st.accounts[p := Acc(None, [account], map[], map[])]
    requires st'.queue == st.queue + [p] && st'.busy == st.busy - {p}
    requires st'.index == st.index && st'.txs == st.txs[4 := Impact(Some(p), {}, {})]
    ensures var ev := Added(store, 4, Some(New(p, account)), [], []);
      Handle(apply, st, ev) == Some(st') && Allowed(st, ev)
  {
    JustOpens(apply, store, st, 4, p, account);
    hide AfterAdd;
  }

  lemma OpensAndConsumes(apply: ApplyDelta, store: nat -> Option<nat>, note: Note, account: nat,
                         st1: Ntx, st2: Ntx, st3: Ntx)
    requires var p, acc := note.account, Acc(None, [account], map[], map[]);
      && st1 == Ntx(map[p := acc], [p], {}, map[1 := Impact(Some(p), {}, {})], map[])
      && st2 == Ntx(map[p := acc.AddNote(note)], [p], {},
                    st1.txs[2 := Impact(None, {note.nullifier}, {})], map[note.nullifier := p])
      && st3 == Ntx(map[p := acc.AddNote(note).AddNullifier(note.nullifier)], [p], {},
                    st2.txs[3 := Impact(None, {}, {note.nullifier})], st2.index)
    ensures Run(apply, [Empty(), st1, st2, st3])
  {
    var p := note.account;
    var ev1 := Added(store, 1, Some(New(p, account)), [], []);
    var ev2, ev3 := Added(store, 2, None, [note], []), Added(store, 3, None, [], [note.nullifier]);
    assert Handle(apply, Empty(), ev1) == Some(st1) && Allowed(Empty(), ev1) by {
      Opens(apply, store, p, account, st1);
    }
    assert st2.accounts == st1.accounts[p := st1.accounts[p].AddNote(note)];
    Creates(apply, store, st1, 2, note, st2);
    assert st3.accounts == st2.accounts[p := st2.accounts[p].AddNullifier(note.nullifier)];
    Consumes(apply, store, st2, 3, note.nullifier, st3);
    hide Handle, Allowed;
    Extend(apply, [Empty()], ev1, st1);
    Extend(apply, [Empty()] + [st1], ev2, st2);
    Extend(apply, [Empty()] + [st1] + [st2], ev3, st3);
    assert [Empty()] + [st1] + [st2] + [st3] == [Empty(), st1, st2, st3];
  }

  lemma Creates(apply: ApplyDelta, store: nat -> Option<nat>, st: Ntx, id: nat, note: Note,
                st': Ntx)
    requires id !in st.txs && note.account in st.accounts && note.nullifier !in st.index
    requires st' == st.(
      accounts := st.accounts[note.account := st.accounts[note.account].AddNote(note)],
      index := st.index[note.nullifier := note.account],
      txs := st.txs[id := Impact(None, {note.nullifier}, {})])
    ensures var ev := Added(store, id, None, [note], []);
      Handle(apply, st, ev) == Some(st') && Allowed(st, ev)
  {
    JustCreates(apply, store, st, id, note);
    hide AfterAdd;
  }

  lemma Consumes(apply: ApplyDelta, store: nat -> Option<nat>, st: Ntx, id: nat, n: nat, st': Ntx)
    requires id !in st.txs && n in st.index && Offers(st.accounts, st.index[n], n)
    requires var p := st.index[n];
      st' == st.(accounts := st.accounts[p := st.accounts[p].AddNullifier(n)],
                 txs := st.txs[id := Impact(None, {}, {n})])
    ensures var ev := Added(store, id, None, [], [n]);
      Handle(apply, st, ev) == Some(st') && Allowed(st, ev)
  {
    JustConsumes(apply, store, st, id, n);
    hide AfterAdd;
  }

  lemma Opens(apply: ApplyDelta, store: nat -> Option<nat>, p: nat, account: nat, st: Ntx)
    requires st == Ntx(map[p := Acc(None, [account], map[], map[])], [p], {},
                       map[1 := Impact(Some(p), {}, {})], map[])
    ensures var ev := Added(store, 1, Some(New(p, account)), [], []);
      Handle(apply, Empty(), ev) == Some(st) && Allowed(Empty(), ev)
  {
    JustOpens(apply, store, Empty(), 1, p, account);
    assert Empty().queue + [p] == st.queue && Empty().busy - {p} == st.busy;
    assert Empty().accounts[p := Acc(None, [account], map[], map[])] == st.accounts;
    assert Empty().txs[1 := Impact(Some(p), {}, {})] == st.txs;
    hide AfterAdd;
  }

  lemma DropsAccount(apply: ApplyDelta, st: Ntx, st': Ntx)
    requires 1 in st.txs && st.txs[1].notes == {} && st.txs[1].nullifiers == {}
    requires st.txs[1].delta.Some? && st.txs[1].delta.value in st.accounts
    requires var acc := st.accounts[st.txs[1].delta.value];
      acc.committed.None? && |acc.inflight| == 1
    requires st' == st.(txs := st.txs - {1}, accounts := st.accounts - {st.txs[1].delta.value})
    ensures Handle(apply, st, Reverted([1])) == Some(st') && Allowed(st, Reverted([1]))
  {
    assert [1][1..] == [];
  }

  lemma CommitsLost(apply: ApplyDelta, st: Ntx, n: nat, p: nat)
    requires st.txs.Keys == {2, 3, 4} && st.txs[4].notes == {}
    requires st.txs[2] == Impact(None, {n}, {}) && st.txs[3] == Impact(None, {}, {n})
    requires st.index == map[n := p] && p in st.accounts && n !in st.accounts[p].nullified
    ensures Allowed(st, Committed([2, 3])) && Handle(apply, st, Committed([2, 3])).None?
  {
    var st' := st.(txs := st.txs - {2});
    assert AfterCommit(st, 2) == Some(st');
    assert Min({n}) == n;
    assert AfterCommit(st', 3).None?;
    assert [2, 3][1..] == [3];
    assert CommitAll(st', [3]).None?;
  }
}
