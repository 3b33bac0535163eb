/** What the events alone tell about the network transaction builder: which accounts are busy
    and which are forgotten. */
module NtxTrace {
  import opened Prelude
  import opened NtxAccounts
  import opened NtxStates
  import opened NtxRevert
  import opened NtxRuns

  // ---------------------------------------------------------------------------------------------
  // Busy accounts

  /** The builder hears of a failure for the account, or of a new transaction that changed it. */
  predicate Frees(st: Ntx, ev: Event, p: nat) {
    || ev == Failed(p)
    || (ev.Added? && ev.id !in st.txs && ev.update.Some? && ev.update.value.prefix == p)
  }

  predicate Chooses(st: Ntx, ev: Event, p: nat) {
    ev.Selected? && Picked(st) == Some(p)
  }

  lemma {:induction false} NotesLeaveBusy(store: nat -> Option<nat>, st: Ntx, notes: seq<Note>)
    ensures AddNotes(store, st, notes).busy == st.busy
    decreases |notes|
  {
    if notes != [] {
      NotesLeaveBusy(store, st, notes[..|notes| - 1]);
    }
  }

  lemma {:induction false} NullifiersLeaveBusy(st: Ntx, ns: seq<nat>)
    requires AddNullifiers(st, ns).Some?
    ensures AddNullifiers(st, ns).value.busy == st.busy
    decreases |ns|
  {
    if ns != [] {
      NullifiersLeaveBusy(st, ns[..|ns| - 1]);
    }
  }

  /** A new transaction frees the account it changed, and no other. */
  lemma AddFrees(apply: ApplyDelta, store: nat -> Option<nat>, st: Ntx, id: nat,
                 update: Option<AccountUpdate>, notes: seq<Note>, ns: seq<nat>)
    requires id !in st.txs && AfterAdd(apply, store, st, id, update, notes, ns).Done?
    ensures AfterAdd(apply, store, st, id, update, notes, ns).state.busy ==
            st.busy - if update.Some? then {update.value.prefix} else {}
  {
    var updated := AddUpdate(apply, store, st, update).state;
    assert updated.busy == st.busy - if update.Some? then {update.value.prefix} else {};
    hide AddUpdate;
    NotesLeaveBusy(store, updated, notes);
    var noted := AddNotes(store, updated, notes);
    hide AddNotes;
    NullifiersLeaveBusy(noted, ns);
    hide AddNullifiers;
  }

  lemma {:induction false} CommitNullifiersLeaveBusy(st: Ntx, ns: set<nat>)
    requires CommitNullifiers(st, ns).Some?
    ensures CommitNullifiers(st, ns).value.busy == st.busy
    decreases ns
  {
    if ns != {} {
      var n := Min(ns);
      var p := st.index[n];
      var st' := st.(index := st.index - {n});
      CommitNullifiersLeaveBusy(
        if p !in st.accounts then st'
        else st'.(accounts := st.accounts[p := st.accounts[p].CommitNullifier(n)]), ns - {n});
    }
  }

  lemma {:induction false} CommitsLeaveBusy(st: Ntx, order: seq<nat>)
    requires CommitAll(st, order).Some?
    ensures CommitAll(st, order).value.busy == st.busy
    decreases |order|
  {
    if order != [] {
      var t := order[0];
      if t in st.txs {
        var committed := CommitDelta(st.(txs := st.txs - {t}), st.txs[t].delta).value;
        CommitNullifiersLeaveBusy(committed, st.txs[t].nullifiers);
      }
      CommitsLeaveBusy(AfterCommit(st, t).value, order[1..]);
    }
  }

  lemma {:induction false} RevertsLeaveBusy(st: Ntx, order: seq<nat>)
    requires RevertAll(st, order).Some?
    ensures RevertAll(st, order).value.busy == st.busy
    decreases |order|
  {
    if order != [] {
      var t := order[0];
      if t in st.txs {
        var changed := RevertDelta(st.(txs := st.txs - {t}), st.txs[t].delta).value;
        RevertNotesIs(changed, st.txs[t].notes);
        RevertNullifiersIs(RevertNotes(changed, st.txs[t].notes).value, st.txs[t].nullifiers);
      }
      RevertsLeaveBusy(AfterRevert(st, t).value, order[1..]);
    }
  }

  /** One event: an account becomes busy by being chosen and stays so until it is freed. */
  lemma BusyStep(apply: ApplyDelta, st: Ntx, ev: Event, p: nat)
    requires Handle(apply, st, ev).Some?
    ensures p in Handle(apply, st, ev).value.busy <==>
            Chooses(st, ev, p) || (p in st.busy && !Frees(st, ev, p))
  {
    hide AfterAdd, CommitAll, RevertAll, Search;
    match ev
    case Added(store, id, update, notes, ns) =>
      if id in st.txs {
        KnownAlready(apply, store, st, id, update, notes, ns);
      } else {
        AddFrees(apply, store, st, id, update, notes, ns);
      }
    case Committed(txs) => CommitsLeaveBusy(st, txs);
    case Reverted(txs) => RevertsLeaveBusy(st, txs);
    case _ =>
  }

  /** Event `i` chose the account, and nothing has freed it since. */
  predicate ChosenAt(states: seq<Ntx>, events: seq<Event>, p: nat, i: nat)
    requires |states| == |events| + 1
  {
    && i < |events| && Chooses(states[i], events[i], p)
    && forall j :: i < j < |events| ==> !Frees(states[j], events[j], p)
  }

  ghost predicate StillChosen(states: seq<Ntx>, events: seq<Event>, p: nat)
    requires |states| == |events| + 1
  {
    exists i: nat :: ChosenAt(states, events, p, i)
  }

  /** Over every run of events, whether or not its notes and accounts are in order, an account is
      busy exactly if a selection chose it and since then no failure was reported for it and no new
      transaction changed it. */
  lemma {:induction false} BusyExactly(apply: ApplyDelta, states: seq<Ntx>, events: seq<Event>,
                                       p: nat)
    requires Follows(apply, states, events) && states[0] == Empty()
    ensures p in states[|events|].busy <==> StillChosen(states, events, p)
    decreases |events|
  {
    if events == [] {
      assert forall i: nat :: !ChosenAt(states, events, p, i);
    } else {
      var k := |events| - 1;
      var f, g := states[..k + 1], events[..k];
      assert Follows(apply, f, g) by {
        forall i | 0 <= i < k ensures Handle(apply, f[i], g[i]) == Some(f[i + 1]) {
          assert Handle(apply, states[i], events[i]) == Some(states[i + 1]);
        }
      }
      BusyExactly(apply, f, g, p);
      assert Handle(apply, states[k], events[k]) == Some(states[k + 1]);
      BusyStep(apply, states[k], events[k], p);
      hide Handle, Follows, Chooses, Frees;
      ChosenLater(states, events, p);
    }
  }

  lemma ChosenLater(states: seq<Ntx>, events: seq<Event>, p: nat)
    requires |states| == |events| + 1 && events != []
    ensures var k := |events| - 1;
      StillChosen(states, events, p) <==>
      || Chooses(states[k], events[k], p)
      || (StillChosen(states[..k + 1], events[..k], p) && !Frees(states[k], events[k], p))
  {
    var k := |events| - 1;
    var f, g := states[..k + 1], events[..k];
    hide Chooses, Frees;
    assert forall i :: 0 <= i < k ==> f[i] == states[i] && g[i] == events[i];
    if Chooses(states[k], events[k], p) {
      assert ChosenAt(states, events, p, k);
    }
    if i: nat :| ChosenAt(states, events, p, i) && i < k {
      assert ChosenAt(f, g, p, i);
    }
    if i: nat :| ChosenAt(f, g, p, i) && !Frees(states[k], events[k], p) {
      assert ChosenAt(states, events, p, i);
    }
  }

  // ---------------------------------------------------------------------------------------------
  // Which accounts are forgotten

  predicate Idle(acc: Acc) {
    acc.inflight == [] && acc.available == map[] && acc.nullified == map[]
  }

  /** A search forgets only accounts that are free, have no state in flight, and have no note, be it
      waiting or consumed; it chooses only a free account with a waiting note. */
  lemma {:induction false} SearchDrops(accounts: map<nat, Acc>, busy: set<nat>, queue: seq<nat>,
                                       n: nat)
    requires n <= |queue| && Search(accounts, busy, queue, n).Some?
    ensures var found := Search(accounts, busy, queue, n).value;
      && (forall p :: p in found.accounts ==> p in accounts && found.accounts[p] == accounts[p])
      && (forall p :: p in accounts && p !in found.accounts ==>
            p !in busy && p in queue && Idle(accounts[p]))
      && (found.chosen.Some? ==>
            var p := found.chosen.value;
            p !in busy && p in found.accounts && found.accounts[p].available != map[])
    decreases n
  {
    if n > 0 {
      var c := queue[0];
      var rotated := queue[1..] + [c];
      if c in busy {
        SearchDrops(accounts, busy, rotated, n - 1);
      } else if accounts[c].IsEmpty() {
        SearchDrops(accounts - {c}, busy, queue[1..], n - 1);
      } else if accounts[c].available == map[] {
        SearchDrops(accounts, busy, rotated, n - 1);
      }
    }
  }

  /** A search that chooses nobody leaves none of the accounts it came to free and idle, or free
      with a waiting note. */
  lemma {:induction false} SearchLeaves(accounts: map<nat, Acc>, busy: set<nat>, queue: seq<nat>,
                                        n: nat)
    requires n <= |queue| && Search(accounts, busy, queue, n).Some?
    requires Search(accounts, busy, queue, n).value.chosen.None?
    ensures var found := Search(accounts, busy, queue, n).value;
      forall i :: 0 <= i < n && queue[i] in found.accounts && queue[i] !in busy ==>
        !Idle(found.accounts[queue[i]]) && found.accounts[queue[i]].available == map[]
    decreases n
  {
    if n > 0 {
      var c := queue[0];
      var drops := c !in busy && accounts[c].IsEmpty();
      var left := if drops then accounts - {c} else accounts;
      var rest := if drops then queue[1..] else queue[1..] + [c];
      SearchDrops(left, busy, rest, n - 1);
      SearchLeaves(left, busy, rest, n - 1);
      assert forall i :: 0 < i < n ==> queue[i] == rest[i - 1];
    }
  }
}
