/** When the bookkeeping of the network transaction builder holds up: the order in which
    transactions are reverted, and the accounts in the queue. */
module NtxRevert {
  import opened Prelude
  import opened NtxAccounts
  import opened NtxStates
  import opened NtxSelection

  // ---------------------------------------------------------------------------------------------
  // Reverting several transactions

  /** Reverts transactions in the given order, as for one `TransactionsReverted` event. */
  function RevertAll(st: Ntx, order: seq<nat>): Option<Ntx>
    decreases |order|
  {
    if order == [] then Some(st) else
      var next := AfterRevert(st, order[0]);
      if next.None? then None else RevertAll(next.value, order[1..])
  }

  /** The tracked transactions that changed the account. */
  function Changing(txs: map<nat, Impact>, p: nat): set<nat> {
    set t | t in txs && txs[t].delta == Some(p)
  }

  /** Every account has one state in flight for each tracked transaction that changed it. */
  ghost predicate Balanced(accounts: map<nat, Acc>, txs: map<nat, Impact>) {
    && (forall t :: t in txs && txs[t].delta.Some? ==> txs[t].delta.value in accounts)
    && (forall p :: p in accounts ==>
          accounts[p].Known() && |accounts[p].inflight| == |Changing(txs, p)|)
  }

  /** Same accounts, same states in flight. */
  ghost predicate SameStates(accounts: map<nat, Acc>, accounts': map<nat, Acc>) {
    && accounts'.Keys == accounts.Keys
    && forall p :: p in accounts ==>
         accounts'[p].inflight == accounts[p].inflight &&
         accounts'[p].committed == accounts[p].committed
  }

  lemma {:induction false} RevertNotesIs(st: Ntx, ns: set<nat>)
    ensures RevertNotes(st, ns).Some? <==> ns <= st.index.Keys
    ensures RevertNotes(st, ns).Some? ==>
      var st' := RevertNotes(st, ns).value;
      && st'.index == st.index - ns && st'.txs == st.txs
      && st'.queue == st.queue && st'.busy == st.busy
      && SameStates(st.accounts, st'.accounts)
    decreases ns
  {
    if ns == {} {
      assert st.index - {} == st.index;
    } else {
      var n := Min(ns);
      if n in st.index {
        var p := st.index[n];
        var st' := st.(index := st.index - {n});
        var next := if p !in st.accounts then st'
          else st'.(accounts := st.accounts[p := st.accounts[p].RevertNote(n)]);
        RevertNotesIs(next, ns - {n});
        assert (st.index - {n}) - (ns - {n}) == st.index - ns;
      }
    }
  }

  lemma {:induction false} RevertNullifiersIs(st: Ntx, ns: set<nat>)
    ensures RevertNullifiers(st, ns).Some? <==> ns <= st.index.Keys
    ensures RevertNullifiers(st, ns).Some? ==>
      var st' := RevertNullifiers(st, ns).value;
      && st'.index == st.index && st'.txs == st.txs
      && st'.queue == st.queue && st'.busy == st.busy
      && SameStates(st.accounts, st'.accounts)
    decreases ns
  {
    if ns != {} {
      var n := Min(ns);
      if n in st.index {
        var p := st.index[n];
        var next := if p !in st.accounts then st
          else st.(accounts := st.accounts[p := st.accounts[p].RevertNullifier(n)]);
        RevertNullifiersIs(next, ns - {n});
      }
    }
  }

  /** Taking one transaction's state away keeps the balance: the newest state goes, whichever
      transaction it came from. */
  lemma RevertDeltaBalanced(st: Ntx, t: nat)
    requires Balanced(st.accounts, st.txs) && t in st.txs
    ensures var r := RevertDelta(st.(txs := st.txs - {t}), st.txs[t].delta);
      && r.Some?
      && r.value.index == st.index && r.value.txs == st.txs - {t}
      && r.value.queue == st.queue && r.value.busy == st.busy
      && Balanced(r.value.accounts, st.txs - {t})
  {
    var txs' := st.txs - {t};
    forall p | p in st.accounts
      ensures |Changing(txs', p)| ==
              |Changing(st.txs, p)| - if st.txs[t].delta == Some(p) then 1 else 0
    {
      var gone := if st.txs[t].delta == Some(p) then {t} else {};
      assert Changing(txs', p) == Changing(st.txs, p) - gone;
      assert gone <= Changing(st.txs, p);
    }
    if st.txs[t].delta.Some? {
      var p := st.txs[t].delta.value;
      assert t in Changing(st.txs, p);
      assert |Changing(st.txs, p)| > 0;
      forall u | u in txs' && txs'[u].delta == Some(p) ensures |Changing(txs', p)| > 0 {
        assert u in Changing(txs', p);
      }
    }
  }

  lemma SameStatesBalanced(accounts: map<nat, Acc>, accounts': map<nat, Acc>,
                           txs: map<nat, Impact>)
    requires Balanced(accounts, txs) && SameStates(accounts, accounts')
    ensures Balanced(accounts', txs)
  {
  }

  /** Reverting one transaction panics exactly when one of its notes, or of the notes it consumed,
      is no longer in the index once its own are taken out. */
  lemma RevertOneIsExact(st: Ntx, t: nat)
    requires Balanced(st.accounts, st.txs) && t in st.txs
    ensures AfterRevert(st, t).Some? <==>
            st.txs[t].notes <= st.index.Keys &&
            st.txs[t].nullifiers <= st.index.Keys - st.txs[t].notes
    ensures AfterRevert(st, t).Some? ==>
      var st' := AfterRevert(st, t).value;
      && st'.index == st.index - st.txs[t].notes && st'.txs == st.txs - {t}
      && st'.queue == st.queue && Balanced(st'.accounts, st'.txs)
  {
    RevertDeltaBalanced(st, t);
    var changed := RevertDelta(st.(txs := st.txs - {t}), st.txs[t].delta).value;
    hide Balanced, SameStates;
    RevertNotesIs(changed, st.txs[t].notes);
    if st.txs[t].notes <= st.index.Keys {
      var noted := RevertNotes(changed, st.txs[t].notes).value;
      SameStatesBalanced(changed.accounts, noted.accounts, noted.txs);
      RevertNullifiersIs(noted, st.txs[t].nullifiers);
      if RevertNullifiers(noted, st.txs[t].nullifiers).Some? {
        SameStatesBalanced(noted.accounts,
                           RevertNullifiers(noted, st.txs[t].nullifiers).value.accounts,
                           noted.txs);
      }
    }
  }

  /** The lookups in the index succeed all the way; transactions that are not tracked are
      skipped. */
  ghost predicate LookupsSucceed(index: set<nat>, txs: map<nat, Impact>, order: seq<nat>) {
    order == [] ||
    (var t := order[0];
     if t !in txs then LookupsSucceed(index, txs, order[1..])
     else txs[t].nullifiers <= index - txs[t].notes &&
          LookupsSucceed(index - txs[t].notes, txs, order[1..]))
  }

  /** Notes are created once. */
  ghost predicate CreatedOnce(txs: map<nat, Impact>) {
    forall t, u :: t in txs && u in txs && t != u ==> txs[t].notes !! txs[u].notes
  }

  /** The transactions of a list that are tracked, with what is recorded of them. */
  ghost predicate Recorded(st: Ntx, txs: map<nat, Impact>, order: seq<nat>) {
    forall t :: t in order ==>
      (t in txs <==> t in st.txs) &&
      (t in txs ==> st.txs[t] == txs[t] && txs[t].notes <= st.index.Keys)
  }

  lemma {:induction false} RevertAllIsExact(st: Ntx, txs: map<nat, Impact>, order: seq<nat>)
    requires Balanced(st.accounts, st.txs) && NoDup(order) && CreatedOnce(txs)
    requires Recorded(st, txs, order)
    ensures RevertAll(st, order).Some? <==> LookupsSucceed(st.index.Keys, txs, order)
    decreases |order|
  {
    hide Balanced;
    if order != [] {
      var t, rest := order[0], order[1..];
      assert order == [t] + rest && t in order;
      NoDupSplit([t], rest);
      assert t in [t];
      assert forall u :: u in rest ==> u in order && u != t;
      if t !in txs {
        RevertAllIsExact(st, txs, rest);
      } else {
        RevertOneIsExact(st, t);
        if AfterRevert(st, t).Some? {
          var st' := AfterRevert(st, t).value;
          forall u | u in rest && u in txs ensures txs[u].notes <= st'.index.Keys {
            assert u in order;
          }
          hide CreatedOnce, AfterRevert, NoDup;
          RevertAllIsExact(st', txs, rest);
        }
      }
    }
  }

  /** No transaction comes after one whose note it consumed. */
  ghost predicate ConsumersFirst(txs: map<nat, Impact>, order: seq<nat>) {
    forall i, j :: 0 <= i <= j < |order| && order[i] in txs && order[j] in txs ==>
      txs[order[i]].notes !! txs[order[j]].nullifiers
  }

  lemma {:induction false} FoundIsOrdered(index: set<nat>, txs: map<nat, Impact>,
                                          order: seq<nat>)
    requires forall t :: t in order && t in txs ==> txs[t].nullifiers <= index
    ensures LookupsSucceed(index, txs, order) <==> ConsumersFirst(txs, order)
    decreases |order|
  {
    if order != [] {
      var t, rest := order[0], order[1..];
      assert order == [t] + rest && t in order;
      assert forall u :: u in rest ==> u in order;
      ConsFirst(txs, t, rest);
      if t !in txs {
        FoundIsOrdered(index, txs, rest);
      } else {
        var index' := index - txs[t].notes;
        if forall u :: u in rest && u in txs ==> txs[u].nullifiers <= index' {
          FoundIsOrdered(index', txs, rest);
        } else {
          var u :| u in rest && u in txs && !(txs[u].nullifiers <= index');
          MissingIsMissed(index', txs, rest, u);
          assert !(txs[t].notes !! txs[u].nullifiers);
        }
      }
    }
  }

  lemma ConsFirst(txs: map<nat, Impact>, t: nat, rest: seq<nat>)
    ensures ConsumersFirst(txs, [t] + rest) <==>
      ConsumersFirst(txs, rest) &&
      (t in txs ==>
         forall u :: u in [t] + rest && u in txs ==> txs[t].notes !! txs[u].nullifiers)
  {
    var order := [t] + rest;
    if ConsumersFirst(txs, order) {
      forall i, j | 0 <= i <= j < |rest| && rest[i] in txs && rest[j] in txs
        ensures txs[rest[i]].notes !! txs[rest[j]].nullifiers
      {
        assert rest[i] == order[i + 1] && rest[j] == order[j + 1];
      }
      forall u | u in order && u in txs && t in txs ensures txs[t].notes !! txs[u].nullifiers {
        var j :| 0 <= j < |order| && order[j] == u;
        assert order[0] == t;
      }
    }
  }

  /** What is not in the index stays out of it. */
  lemma {:induction false} MissingIsMissed(index: set<nat>, txs: map<nat, Impact>,
                                           order: seq<nat>, u: nat)
    requires u in order && u in txs && !(txs[u].nullifiers <= index)
    ensures !LookupsSucceed(index, txs, order)
    decreases |order|
  {
    if u != order[0] {
      MissingIsMissed(if order[0] in txs then index - txs[order[0]].notes else index,
                      txs, order[1..], u);
    }
  }

  /** Notes are consumed once. */
  ghost predicate ConsumedOnce(txs: map<nat, Impact>) {
    forall t, u :: t in txs && u in txs && t != u ==> txs[t].nullifiers !! txs[u].nullifiers
  }

  ghost predicate Indexed(index: set<nat>, txs: map<nat, Impact>) {
    forall t :: t in txs ==> txs[t].notes + txs[t].nullifiers <= index
  }

  /** Tracked transactions are in order with the accounts and with the index. */
  ghost predicate Tracked(st: Ntx) {
    && Balanced(st.accounts, st.txs)
    && CreatedOnce(st.txs) && ConsumedOnce(st.txs)
    && Indexed(st.index.Keys, st.txs)
  }

  /** Reverting transactions panics exactly when a tracked one comes after the transaction that
      created a note it consumed. The node reverts in the order of the ids, which says nothing
      about that. */
  lemma {:induction false} RevertPanicsIffCreatorFirst(st: Ntx, order: seq<nat>)
    requires Tracked(st) && NoDup(order)
    ensures RevertAll(st, order).Some? <==> ConsumersFirst(st.txs, order)
  {
    RevertAllIsExact(st, st.txs, order);
    FoundIsOrdered(st.index.Keys, st.txs, order);
  }

  function Empty(): Ntx {
    Ntx(map[], [], {}, map[], map[])
  }

  lemma {:induction false} OneByOne(store: nat -> Option<nat>, st: Ntx, note: Note, n: nat)
    ensures AddNotes(store, st, []) == st
    ensures AddNotes(store, st, [note]) == AddNote(store, st, note)
    ensures AddNullifiers(st, []) == Some(st)
    ensures AddNullifiers(st, [n]) == AddNullifier(st, n)
    ensures Nullifiers([note]) == {note.nullifier} && Nullifiers([]) == {}
    ensures Elems([n]) == {n} && Elems<nat>([]) == {}
  {
    assert [note][..0] == [] && [n][..0] == [];
  }

  /** A transaction that does no more than create a note. */
  lemma JustCreates(apply: ApplyDelta, store: nat -> Option<nat>, st: Ntx, id: nat, note: Note)
    requires id !in st.txs
    ensures var noted := AddNote(store, st, note);
      noted.txs == st.txs && AfterAdd(apply, store, st, id, None, [note], []) ==
      Done(noted.(txs := st.txs[id := Impact(None, {note.nullifier}, {})]))
  {
    OneByOne(store, st, note, 0);
    OneByOne(store, AddNote(store, st, note), note, 0);
    assert {} * AddNote(store, st, note).index.Keys == {};
    hide AddNotes, AddNullifiers, Nullifiers;
  }

  /** A transaction that does no more than consume a note. */
  lemma JustConsumes(apply: ApplyDelta, store: nat -> Option<nat>, st: Ntx, id: nat, n: nat)
    requires id !in st.txs && n in st.index
    ensures AfterAdd(apply, store, st, id, None, [], [n]) ==
      if AddNullifier(st, n).None? then Panic
      else Done(AddNullifier(st, n).value.(txs := st.txs[id := Impact(None, {}, {n})]))
  {
    OneByOne(store, st, Note(n, 0, 0), n);
    assert {n} * st.index.Keys == {n};
    hide AddNotes, AddNullifiers, Nullifiers;
  }

  /** From the empty builder: a transaction creates a note for an account that the store knows,
      another one consumes it, and both are reverted. If the creator comes first that panics. */
  lemma CreatorFirstPanics(apply: ApplyDelta, store: nat -> Option<nat>, creator: nat,
                           consumer: nat, note: Note)
    requires store(note.account).Some? && creator != consumer
    ensures var added := AfterAdd(apply, store, Empty(), creator, None, [note], []);
      && added.Done?
      && var both := AfterAdd(apply, store, added.state, consumer, None, [], [note.nullifier]);
         && both.Done?
         && RevertAll(both.state, [creator, consumer]).None?
         && RevertAll(both.state, [consumer, creator]).Some?
  {
    var n, p := note.nullifier, note.account;
    var acc := Acc(Some(store(p).value), [], map[], map[]);
    JustCreates(apply, store, Empty(), creator, note);
    var txs := map[creator := Impact(None, {n}, {})];
    var st1 := Ntx(map[p := acc.AddNote(note)], [p], {}, txs, map[n := p]);
    assert AddNote(store, Empty(), note) == st1.(txs := map[]);
    JustConsumes(apply, store, st1, consumer, n);
    var st2 := AddNullifier(st1, n).value.(txs := txs[consumer := Impact(None, {}, {n})]);
    hide AfterAdd;
    InEitherOrder(st2, creator, consumer, n, p);
  }

  lemma {:induction false} InEitherOrder(st: Ntx, creator: nat, consumer: nat, n: nat, p: nat)
    requires creator != consumer && st.index == map[n := p] && st.accounts.Keys == {p}
    requires st.accounts[p].Known() && st.accounts[p].inflight == []
    requires st.txs == map[creator := Impact(None, {n}, {}), consumer := Impact(None, {}, {n})]
    ensures RevertAll(st, [creator, consumer]).None?
    ensures RevertAll(st, [consumer, creator]).Some?
  {
    assert Changing(st.txs, p) == {};
    assert Tracked(st);
    hide Tracked, RevertAll;
    RevertPanicsIffCreatorFirst(st, [creator, consumer]);
    RevertPanicsIffCreatorFirst(st, [consumer, creator]);
    var order := [creator, consumer];
    assert order[0] == creator && order[1] == consumer;
    assert n in st.txs[creator].notes && n in st.txs[consumer].nullifiers;
  }

  // ---------------------------------------------------------------------------------------------
  // The queue

  lemma FetchCovers(store: nat -> Option<nat>, st: Ntx, prefix: nat)
    requires Covers(st.queue, st.accounts.Keys)
    ensures Covers(Fetch(store, st, prefix).queue, Fetch(store, st, prefix).accounts.Keys)
  {
    if prefix !in st.accounts {
      QueuePush(st.queue, st.accounts.Keys, prefix);
    }
  }

  lemma QueuePush(queue: seq<nat>, accounts: set<nat>, p: nat)
    requires Covers(queue, accounts) && p !in accounts
    ensures Covers(queue + [p], accounts + {p})
  {
    assert p !in Elems(queue);
    NoDupAppend(queue, [p]);
    assert Elems(queue + [p]) == Elems(queue) + {p};
  }

  lemma {:induction false} AddNotesCovers(store: nat -> Option<nat>, st: Ntx, notes: seq<Note>)
    requires Covers(st.queue, st.accounts.Keys)
    ensures var st' := AddNotes(store, st, notes); Covers(st'.queue, st'.accounts.Keys)
    decreases |notes|
  {
    if notes != [] {
      AddNotesCovers(store, st, notes[..|notes| - 1]);
      var before, note := AddNotes(store, st, notes[..|notes| - 1]), notes[|notes| - 1];
      var noted := before.(index := before.index[note.nullifier := note.account]);
      FetchCovers(store, noted, note.account);
      var fetched := Fetch(store, noted, note.account);
      if note.account in fetched.accounts {
        assert AddNote(store, before, note).accounts.Keys == fetched.accounts.Keys;
      }
    }
  }

  lemma {:induction false} AddNullifiersCovers(st: Ntx, ns: seq<nat>)
    requires AddNullifiers(st, ns).Some?
    ensures var st' := AddNullifiers(st, ns).value;
      st'.queue == st.queue && st'.accounts.Keys == st.accounts.Keys
    decreases |ns|
  {
    if ns != [] {
      AddNullifiersCovers(st, ns[..|ns| - 1]);
    }
  }

  /** Adding a transaction keeps the queue in order exactly when it does not create an account that
      is tracked already. */
  lemma AddCovers(apply: ApplyDelta, store: nat -> Option<nat>, st: Ntx, id: nat,
                  update: Option<AccountUpdate>, notes: seq<Note>, ns: seq<nat>)
    requires Covers(st.queue, st.accounts.Keys) && id !in st.txs
    requires AfterAdd(apply, store, st, id, update, notes, ns).Done?
    ensures var st' := AfterAdd(apply, store, st, id, update, notes, ns).state;
      Covers(st'.queue, st'.accounts.Keys) <==>
      !(update.Some? && update.value.New? && update.value.prefix in st.accounts)
  {
    UpdateCovers(apply, store, st, update);
    var updated := AddUpdate(apply, store, st, update).state;
    var noted := AddNotes(store, updated, notes);
    if Covers(updated.queue, updated.accounts.Keys) {
      AddNotesCovers(store, updated, notes);
    }
    AddNotesQueue(store, updated, notes);
    hide AddNotes;
    AddNullifiersCovers(noted, ns);
    if !NoDup(updated.queue) {
      var i, j :| 0 <= i < j < |updated.queue| && updated.queue[i] == updated.queue[j];
      assert noted.queue[i] == noted.queue[j];
    }
  }

  /** Places in the queue are only taken at the back. */
  lemma {:induction false} AddNotesQueue(store: nat -> Option<nat>, st: Ntx, notes: seq<Note>)
    ensures st.queue <= AddNotes(store, st, notes).queue
    decreases |notes|
  {
    if notes != [] {
      AddNotesQueue(store, st, notes[..|notes| - 1]);
    }
  }

  lemma UpdateCovers(apply: ApplyDelta, store: nat -> Option<nat>, st: Ntx,
                     update: Option<AccountUpdate>)
    requires Covers(st.queue, st.accounts.Keys) && AddUpdate(apply, store, st, update).Done?
    ensures var st' := AddUpdate(apply, store, st, update).state;
      if update.Some? && update.value.New? && update.value.prefix in st.accounts
      then !NoDup(st'.queue) else Covers(st'.queue, st'.accounts.Keys)
  {
    if update.Some? {
      var p := update.value.prefix;
      if update.value.New? {
        if p in st.accounts {
          assert p in Elems(st.queue);
          var i :| 0 <= i < |st.queue| && st.queue[i] == p;
          var queue := st.queue + [p];
          assert queue[i] == queue[|st.queue|];
        } else {
          QueuePush(st.queue, st.accounts.Keys, p);
        }
      } else {
        FetchCovers(store, st, p);
        var fetched := Fetch(store, st, p);
        var changed := fetched.accounts[p].AddDelta(apply, update.value.delta);
        assert fetched.accounts[p := changed].Keys == fetched.accounts.Keys;
      }
    }
  }

  lemma {:induction false} CommitNullifiersKeeps(st: Ntx, ns: set<nat>)
    requires CommitNullifiers(st, ns).Some?
    ensures var st' := CommitNullifiers(st, ns).value;
      st'.queue == st.queue && st'.accounts.Keys == st.accounts.Keys
    decreases ns
  {
    if ns != {} {
      var n := Min(ns);
      var p := st.index[n];
      var st' := st.(index := st.index - {n});
      CommitNullifiersKeeps(
        if p !in st.accounts then st'
        else st'.(accounts := st.accounts[p := st.accounts[p].CommitNullifier(n)]), ns - {n});
    }
  }

  lemma CommitCovers(st: Ntx, id: nat)
    requires Covers(st.queue, st.accounts.Keys) && AfterCommit(st, id).Some?
    ensures Covers(AfterCommit(st, id).value.queue, AfterCommit(st, id).value.accounts.Keys)
  {
    if id in st.txs {
      var committed := CommitDelta(st.(txs := st.txs - {id}), st.txs[id].delta).value;
      CommitNullifiersKeeps(committed, st.txs[id].nullifiers);
    }
  }

  /** Reverting keeps the queue in order exactly when it does not undo an account's creation: the
      account is dropped, its entry in the queue is not. */
  lemma RevertCovers(st: Ntx, id: nat)
    requires Covers(st.queue, st.accounts.Keys) && AfterRevert(st, id).Some?
    ensures var st' := AfterRevert(st, id).value;
      Covers(st'.queue, st'.accounts.Keys) <==>
      !(id in st.txs && st.txs[id].delta.Some? &&
        !st.accounts[st.txs[id].delta.value].RevertDelta().Known())
  {
    if id in st.txs {
      var changed := RevertDelta(st.(txs := st.txs - {id}), st.txs[id].delta).value;
      RevertNotesIs(changed, st.txs[id].notes);
      RevertNullifiersIs(RevertNotes(changed, st.txs[id].notes).value, st.txs[id].nullifiers);
    }
  }

  /** After an account's creation is reverted, the next search panics exactly when nothing that can
      be selected comes before the account's old place in the queue, unless the account is still
      busy. */
  lemma RevertedCreationPanics(st: Ntx, id: nat, j: nat)
    requires Covers(st.queue, st.accounts.Keys) && AfterRevert(st, id).Some?
    requires id in st.txs && j < |st.queue| && st.txs[id].delta == Some(st.queue[j])
    requires !st.accounts[st.queue[j]].RevertDelta().Known()
    ensures var st' := AfterRevert(st, id).value;
      && st'.queue == st.queue && st'.busy == st.busy
      && (Search(st'.accounts, st'.busy, st'.queue, |st'.queue|).None? <==>
          st.queue[j] !in st.busy &&
          forall i :: 0 <= i < j ==> !Selectable(st'.accounts, st'.busy, st'.queue[i]))
  {
    var p, st' := st.queue[j], AfterRevert(st, id).value;
    var changed := RevertDelta(st.(txs := st.txs - {id}), st.txs[id].delta).value;
    RevertNotesIs(changed, st.txs[id].notes);
    RevertNullifiersIs(RevertNotes(changed, st.txs[id].notes).value, st.txs[id].nullifiers);
    assert st'.accounts.Keys == st.accounts.Keys - {p};
    hide AfterRevert;
    SearchIsExact(st'.accounts, st'.busy, st'.queue);
    forall i | 0 <= i < |st.queue|
      ensures Lost(st'.accounts, st'.busy, st'.queue[i]) <==> i == j && p !in st.busy
    {
      assert st.queue[i] in Elems(st.queue);
      assert i != j ==> st.queue[i] != p;
    }
  }
}
