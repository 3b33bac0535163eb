/** What adding, committing and reverting a transaction do to the states and the notes of the
    network transaction builder's accounts, exactly. */
module NtxEffects {
  import opened Prelude
  import opened NtxAccounts
  import opened NtxStates
  import opened NtxRevert
  import opened NtxInvariant

  predicate HasStates(acc: Acc, committed: Option<nat>, inflight: seq<nat>) {
    acc.committed == committed && acc.inflight == inflight
  }

  predicate Waits(accounts: map<nat, Acc>, q: nat, n: nat, note: Note) {
    q in accounts && n in accounts[q].available && accounts[q].available[n] == note
  }

  /** The account has the note as consumed. */
  predicate Held(accounts: map<nat, Acc>, q: nat, n: nat, note: Note) {
    q in accounts && n in accounts[q].nullified && accounts[q].nullified[n] == note
  }

  lemma OffersIs(accounts: map<nat, Acc>, q: nat, n: nat)
    ensures Offers(accounts, q, n) <==> exists note :: Waits(accounts, q, n, note)
    ensures Retains(accounts, q, n) <==> exists note :: Held(accounts, q, n, note)
  {
    if Offers(accounts, q, n) {
      assert Waits(accounts, q, n, accounts[q].available[n]);
    }
    if Retains(accounts, q, n) {
      assert Held(accounts, q, n, accounts[q].nullified[n]);
    }
  }

  ghost predicate SameNotes(accounts: map<nat, Acc>, accounts': map<nat, Acc>) {
    && (forall q, n, note :: Waits(accounts', q, n, note) <==> Waits(accounts, q, n, note))
    && (forall q, n, note :: Held(accounts', q, n, note) <==> Held(accounts, q, n, note))
  }

  /** Every note of an account is in the index under its name, and not both waiting and consumed. */
  ghost predicate WellFiled(st: Ntx) {
    forall q, n :: (Offers(st.accounts, q, n) || Retains(st.accounts, q, n)) ==>
      && n in st.index && st.index[n] == q
      && !(Offers(st.accounts, q, n) && Retains(st.accounts, q, n))
  }

  lemma MidwayFiled(apply: ApplyDelta, st: Ntx, txs: map<nat, Impact>, used: set<nat>)
    requires Midway(apply, st, txs, used)
    ensures WellFiled(st)
  {
    forall q, n | Offers(st.accounts, q, n) || Retains(st.accounts, q, n)
      ensures n in st.index && st.index[n] == q
      ensures !(Offers(st.accounts, q, n) && Retains(st.accounts, q, n))
    {
      assert Sane(apply, st.accounts[q]) && Filed(q, st.accounts[q], st.index, used);
      SaneDisjoint(apply, st.accounts[q]);
    }
  }

  // ---------------------------------------------------------------------------------------------
  // Adding

  /** The committed state and the states in flight with which a transaction finds an account. */
  function Before(store: nat -> Option<nat>, accounts: map<nat, Acc>, q: nat)
      : (Option<nat>, seq<nat>)
  {
    if q in accounts then (accounts[q].committed, accounts[q].inflight) else (store(q), [])
  }

  /** A new account has the one state it was created in; a delta is applied to the latest state,
      which may come from the store; every other account is as it was found. */
  predicate StatesAfter(apply: ApplyDelta, store: nat -> Option<nat>, accounts: map<nat, Acc>,
                        update: Option<AccountUpdate>, q: nat, acc: Acc)
  {
    var (committed, inflight) := Before(store, accounts, q);
    if Prefix(update) != Some(q) then HasStates(acc, committed, inflight)
    else match update.value
      case New(_, account) => HasStates(acc, None, [account])
      case Delta(_, delta) =>
        var latest := if inflight != [] then Some(inflight[|inflight| - 1]) else committed;
        && latest.Some? && apply(latest.value, delta).Some?
        && HasStates(acc, committed, inflight + [apply(latest.value, delta).value])
  }

  lemma UpdateEffect(apply: ApplyDelta, store: nat -> Option<nat>, st: Ntx,
                     update: Option<AccountUpdate>)
    requires CreatesNew(st, update) && AddUpdate(apply, store, st, update).Done?
    ensures var st' := AddUpdate(apply, store, st, update).state;
      && st'.accounts.Keys == st.accounts.Keys +
           (if update.Some? then {update.value.prefix} else {})
      && SameNotes(st.accounts, st'.accounts) && st'.index == st.index
      && forall q :: q in st'.accounts ==>
           StatesAfter(apply, store, st.accounts, update, q, st'.accounts[q])
  {
  }

  ghost predicate Distinct(notes: seq<Note>) {
    forall i, j :: 0 <= i < j < |notes| ==> notes[i].nullifier != notes[j].nullifier
  }

  predicate Addressed(notes: seq<Note>, q: nat) {
    exists i :: 0 <= i < |notes| && notes[i].account == q
  }

  lemma NoteEffect(store: nat -> Option<nat>, st: Ntx, note: Note)
    requires forall q :: !Offers(st.accounts, q, note.nullifier)
    ensures var st' := AddNote(store, st, note);
      && (forall q :: q in st'.accounts <==>
            q in st.accounts || (q == note.account && store(q).Some?))
      && (forall q :: q in st'.accounts ==>
            var (committed, inflight) := Before(store, st.accounts, q);
            HasStates(st'.accounts[q], committed, inflight))
      && (forall q, n, m :: Waits(st'.accounts, q, n, m) <==>
            Waits(st.accounts, q, n, m) ||
            (m == note && n == note.nullifier && q == note.account && q in st'.accounts))
      && (forall q, n, m :: Held(st'.accounts, q, n, m) <==> Held(st.accounts, q, n, m))
  {
    assert !Offers(st.accounts, note.account, note.nullifier);
  }

  /** New notes wait with their accounts, as far as these are tracked or known to the store. */
  lemma {:induction false} NotesEffect(store: nat -> Option<nat>, st: Ntx, notes: seq<Note>)
    requires Distinct(notes)
    requires forall q, i :: 0 <= i < |notes| ==> !Offers(st.accounts, q, notes[i].nullifier)
    ensures var st' := AddNotes(store, st, notes);
      && (forall q :: q in st'.accounts <==>
            q in st.accounts || (store(q).Some? && Addressed(notes, q)))
      && (forall q :: q in st'.accounts ==>
            var (committed, inflight) := Before(store, st.accounts, q);
            HasStates(st'.accounts[q], committed, inflight))
      && (forall q, n, note :: Waits(st'.accounts, q, n, note) <==>
            Waits(st.accounts, q, n, note) ||
            (note in notes && note.nullifier == n && note.account == q && q in st'.accounts))
      && (forall q, n, note :: Held(st'.accounts, q, n, note) <==> Held(st.accounts, q, n, note))
    decreases |notes|
  {
    if notes != [] {
      var f, note := notes[..|notes| - 1], notes[|notes| - 1];
      assert notes == f + [note];
      NotesEffect(store, st, f);
      var before := AddNotes(store, st, f);
      forall q ensures !Offers(before.accounts, q, note.nullifier) {
        assert notes[|f|] == note;
        OffersIs(st.accounts, q, note.nullifier);
        OffersIs(before.accounts, q, note.nullifier);
      }
      hide AddNote, Offers, Waits, Held;
      NoteEffect(store, before, note);
      forall q ensures Addressed(notes, q) <==> Addressed(f, q) || q == note.account {
        AddressedPush(f, note, q);
      }
    }
  }

  lemma AddressedPush(f: seq<Note>, note: Note, q: nat)
    ensures Addressed(f + [note], q) <==> Addressed(f, q) || q == note.account
  {
    var notes := f + [note];
    assert notes[|f|] == note && forall i :: 0 <= i < |f| ==> notes[i] == f[i];
  }

  lemma NullifierEffect(st: Ntx, n: nat)
    requires WellFiled(st) && AddNullifier(st, n).Some?
    ensures var st' := AddNullifier(st, n).value;
      && WellFiled(st') && st'.index == st.index && st'.txs == st.txs
      && SameStates(st.accounts, st'.accounts)
      && (forall q, m, note :: Waits(st'.accounts, q, m, note) <==>
            Waits(st.accounts, q, m, note) && m != n)
      && (forall q, m, note :: Held(st'.accounts, q, m, note) <==>
            Held(st.accounts, q, m, note) || (Waits(st.accounts, q, m, note) && m == n))
  {
    var st' := AddNullifier(st, n).value;
    forall q, m
      ensures Offers(st'.accounts, q, m) <==> Offers(st.accounts, q, m) && m != n
      ensures Retains(st'.accounts, q, m) <==>
              Retains(st.accounts, q, m) || (Offers(st.accounts, q, m) && m == n)
    {
    }
    forall q, m, note
      ensures Waits(st'.accounts, q, m, note) <==> Waits(st.accounts, q, m, note) && m != n
      ensures Held(st'.accounts, q, m, note) <==>
              Held(st.accounts, q, m, note) || (Waits(st.accounts, q, m, note) && m == n)
    {
      OffersIs(st.accounts, q, m);
      OffersIs(st'.accounts, q, m);
    }
  }

  /** The consumed notes that waited are now held. */
  lemma {:induction false} NullifiersEffect(st: Ntx, ns: seq<nat>)
    requires WellFiled(st) && AddNullifiers(st, ns).Some?
    ensures var st' := AddNullifiers(st, ns).value;
      && WellFiled(st') && st'.index == st.index && st'.txs == st.txs
      && st'.accounts.Keys == st.accounts.Keys
      && (forall q :: q in st.accounts ==>
            HasStates(st'.accounts[q], st.accounts[q].committed, st.accounts[q].inflight))
      && (forall q, m, note :: Waits(st'.accounts, q, m, note) <==>
            Waits(st.accounts, q, m, note) && m !in ns)
      && (forall q, m, note :: Held(st'.accounts, q, m, note) <==>
            Held(st.accounts, q, m, note) || (Waits(st.accounts, q, m, note) && m in ns))
    decreases |ns|
  {
    hide WellFiled, Waits, Held, AddNullifier;
    if ns != [] {
      var f, n := ns[..|ns| - 1], ns[|ns| - 1];
      assert ns == f + [n];
      NullifiersEffect(st, f);
      NullifierEffect(AddNullifiers(st, f).value, n);
    }
  }

  lemma {:induction false} AddedFiled(apply: ApplyDelta, store: nat -> Option<nat>, st: Ntx,
                                      id: nat, update: Option<AccountUpdate>, notes: seq<Note>)
    requires Inv(apply, st) && id !in st.txs
    requires CreatesNew(st, update) && CreatesOnce(st.index.Keys, notes)
    requires AddUpdate(apply, store, st, update).Done?
    ensures var noted := AddNotes(store, AddUpdate(apply, store, st, update).state, notes);
      && WellFiled(noted)
      && noted.index.Keys == st.index.Keys + Nullifiers(notes) && noted.txs == st.txs
    ensures forall q, i :: 0 <= i < |notes| ==>
      !Offers(AddUpdate(apply, store, st, update).state.accounts, q, notes[i].nullifier)
  {
    hide Midway, AddNotes, AddUpdate, Consumed, CreatedOnce, ConsumedOnce, Indexed, WellFiled;
    var used := Consumed(st.txs);
    var updated := AddUpdate(apply, store, st, update).state;
    var txs' := st.txs[id := Impact(Prefix(update), {}, {})];
    ConsumedIndexed(st.index.Keys, st.txs);
    UpdateKeeps(apply, store, st, id, update, used);
    NotesKeep(apply, store, updated, notes, txs', used);
    MidwayFiled(apply, AddNotes(store, updated, notes), txs', used);
    OffersFiled(apply, updated, txs', used);
    assert forall i :: 0 <= i < |notes| ==> notes[i].nullifier in Nullifiers(notes);
  }

  /** The account has heard of the note before, or the transaction brings it. */
  predicate Offered(accounts: map<nat, Acc>, notes: seq<Note>, tracked: set<nat>, q: nat, n: nat,
                    note: Note)
  {
    || Waits(accounts, q, n, note)
    || (note in notes && note.nullifier == n && note.account == q && q in tracked)
  }

  /** The whole effect of a transaction that was added, on the accounts, their states and their
      notes, and what is recorded of it. */
  lemma AddedExactly(apply: ApplyDelta, store: nat -> Option<nat>, st: Ntx, id: nat,
                     update: Option<AccountUpdate>, notes: seq<Note>, ns: seq<nat>)
    requires Inv(apply, st) && id !in st.txs
    requires CreatesNew(st, update) && CreatesOnce(st.index.Keys, notes)
    requires AfterAdd(apply, store, st, id, update, notes, ns).Done?
    ensures var st' := AfterAdd(apply, store, st, id, update, notes, ns).state;
      && (forall q :: q in st'.accounts <==>
            || q in st.accounts || Prefix(update) == Some(q)
            || (store(q).Some? && Addressed(notes, q)))
      && (forall q :: q in st'.accounts ==>
            StatesAfter(apply, store, st.accounts, update, q, st'.accounts[q]))
      && (forall q, n, note :: Waits(st'.accounts, q, n, note) <==>
            Offered(st.accounts, notes, st'.accounts.Keys, q, n, note) && n !in ns)
      && (forall q, n, note :: Held(st'.accounts, q, n, note) <==>
            Held(st.accounts, q, n, note) ||
            (Offered(st.accounts, notes, st'.accounts.Keys, q, n, note) && n in ns))
      && var impact := Impact(Prefix(update), Nullifiers(notes),
                              Elems(ns) * (st.index.Keys + Nullifiers(notes)));
         st'.txs == if impact == Impact(None, {}, {}) then st.txs else st.txs[id := impact]
  {
    assert Distinct(notes);
    hide Inv, CreatesOnce, AddNotes, AddNullifiers, AddUpdate, WellFiled, Waits, Held, Offers;
    hide StatesAfter, Before, HasStates, Addressed;
    UpdateEffect(apply, store, st, update);
    AddedFiled(apply, store, st, id, update, notes);
    var updated := AddUpdate(apply, store, st, update).state;
    NotesEffect(store, updated, notes);
    var noted := AddNotes(store, updated, notes);
    NullifiersEffect(noted, ns);
    var st' := AddNullifiers(noted, ns).value;
    forall q | q in st'.accounts
      ensures StatesAfter(apply, store, st.accounts, update, q, st'.accounts[q])
    {
      StatesPass(apply, store, st.accounts, updated.accounts, update, q, noted.accounts[q],
                 st'.accounts[q]);
    }
  }

  lemma StatesPass(apply: ApplyDelta, store: nat -> Option<nat>, accounts: map<nat, Acc>,
                   updated: map<nat, Acc>, update: Option<AccountUpdate>, q: nat, noted: Acc,
                   acc: Acc)
    requires updated.Keys == accounts.Keys + if update.Some? then {update.value.prefix} else {}
    requires q in updated ==> StatesAfter(apply, store, accounts, update, q, updated[q])
    requires var (committed, inflight) := Before(store, updated, q);
      HasStates(noted, committed, inflight)
    requires HasStates(acc, noted.committed, noted.inflight)
    ensures StatesAfter(apply, store, accounts, update, q, acc)
  {
  }

  // ---------------------------------------------------------------------------------------------
  // Committing

  lemma {:induction false} CommitNullifiersEffect(st: Ntx, ns: set<nat>)
    requires WellFiled(st) && CommitNullifiers(st, ns).Some?
    ensures var st' := CommitNullifiers(st, ns).value;
      && SameStates(st.accounts, st'.accounts)
      && (forall q, m, note :: Waits(st'.accounts, q, m, note) <==> Waits(st.accounts, q, m, note))
      && (forall q, m, note :: Held(st'.accounts, q, m, note) <==>
            Held(st.accounts, q, m, note) && m !in ns)
    decreases ns
  {
    hide WellFiled, Waits, Held;
    if ns != {} {
      var n := Min(ns);
      var p := st.index[n];
      var st' := st.(index := st.index - {n});
      var next := if p !in st.accounts then st'
        else st'.(accounts := st.accounts[p := st.accounts[p].CommitNullifier(n)]);
      NullifierForgotten(st, n, next);
      CommitNullifiersEffect(next, ns - {n});
    }
  }

  lemma NullifierForgotten(st: Ntx, n: nat, next: Ntx)
    requires WellFiled(st) && n in st.index
    requires var p, st' := st.index[n], st.(index := st.index - {n});
      if p !in st.accounts then next == st'
      else n in st.accounts[p].nullified &&
           next == st'.(accounts := st.accounts[p := st.accounts[p].CommitNullifier(n)])
    ensures WellFiled(next) && SameStates(st.accounts, next.accounts)
    ensures forall q, m, note ::
      Waits(next.accounts, q, m, note) <==> Waits(st.accounts, q, m, note)
    ensures forall q, m, note ::
      Held(next.accounts, q, m, note) <==> Held(st.accounts, q, m, note) && m != n
  {
    forall q, m
      ensures Offers(next.accounts, q, m) <==> Offers(st.accounts, q, m)
      ensures Retains(next.accounts, q, m) <==> Retains(st.accounts, q, m) && m != n
    {
    }
    forall q, m, note
      ensures Held(next.accounts, q, m, note) <==> Held(st.accounts, q, m, note) && m != n
    {
      OffersIs(st.accounts, q, m);
      OffersIs(next.accounts, q, m);
    }
  }

  /** The states of an account after the oldest one is committed. */
  predicate Advanced(acc: Acc, acc': Acc) {
    acc.inflight != [] && HasStates(acc', Some(acc.inflight[0]), acc.inflight[1..])
  }

  lemma DeltaCommitted(st: Ntx, delta: Option<nat>)
    requires WellFiled(st) && CommitDelta(st, delta).Some?
    ensures var st' := CommitDelta(st, delta).value;
      && WellFiled(st') && SameNotes(st.accounts, st'.accounts)
      && st'.accounts.Keys == st.accounts.Keys
      && forall q :: q in st.accounts ==>
           if delta == Some(q) then Advanced(st.accounts[q], st'.accounts[q])
           else HasStates(st'.accounts[q], st.accounts[q].committed, st.accounts[q].inflight)
  {
    var st' := CommitDelta(st, delta).value;
    assert forall q, n :: Offers(st'.accounts, q, n) <==> Offers(st.accounts, q, n);
    assert forall q, n :: Retains(st'.accounts, q, n) <==> Retains(st.accounts, q, n);
  }

  /** The whole effect of committing a transaction on the accounts: the oldest state of the one it
      changed is committed, and the notes it consumed are gone. */
  lemma CommittedExactly(apply: ApplyDelta, st: Ntx, t: nat)
    requires WithinBlock(apply, st) && t in st.txs && AfterCommit(st, t).Some?
    ensures var st' := AfterCommit(st, t).value;
      && st'.accounts.Keys == st.accounts.Keys
      && (forall q :: q in st.accounts ==>
            if st.txs[t].delta == Some(q) then Advanced(st.accounts[q], st'.accounts[q])
            else HasStates(st'.accounts[q], st.accounts[q].committed, st.accounts[q].inflight))
      && (forall q, n, note :: Waits(st'.accounts, q, n, note) <==> Waits(st.accounts, q, n, note))
      && (forall q, n, note :: Held(st'.accounts, q, n, note) <==>
            Held(st.accounts, q, n, note) && n !in st.txs[t].nullifiers)
  {
    MidwayFiled(apply, st, st.txs, Consumed(st.txs));
    var untracked := st.(txs := st.txs - {t});
    assert WellFiled(untracked);
    hide WithinBlock, WellFiled, Waits, Held, CommitDelta, CommitNullifiers;
    DeltaCommitted(untracked, st.txs[t].delta);
    CommitNullifiersEffect(CommitDelta(untracked, st.txs[t].delta).value, st.txs[t].nullifiers);
  }

  // ---------------------------------------------------------------------------------------------
  // Reverting

  lemma {:induction false} RevertNotesEffect(st: Ntx, ns: set<nat>)
    requires WellFiled(st) && RevertNotes(st, ns).Some?
    ensures var st' := RevertNotes(st, ns).value;
      && WellFiled(st') && SameStates(st.accounts, st'.accounts)
      && (forall q, m, note :: Waits(st'.accounts, q, m, note) <==>
            Waits(st.accounts, q, m, note) && m !in ns)
      && (forall q, m, note :: Held(st'.accounts, q, m, note) <==>
            Held(st.accounts, q, m, note) && m !in ns)
    decreases ns
  {
    hide WellFiled, Waits, Held;
    if ns != {} {
      var n := Min(ns);
      var p, st' := st.index[n], st.(index := st.index - {n});
      var next := if p !in st.accounts then st'
        else st'.(accounts := st.accounts[p := st.accounts[p].RevertNote(n)]);
      NoteForgotten(st, n, next);
      RevertNotesEffect(next, ns - {n});
    }
  }

  lemma NoteForgotten(st: Ntx, n: nat, next: Ntx)
    requires WellFiled(st) && n in st.index
    requires var p, st' := st.index[n], st.(index := st.index - {n});
      next == if p !in st.accounts then st'
              else st'.(accounts := st.accounts[p := st.accounts[p].RevertNote(n)])
    ensures WellFiled(next) && SameStates(st.accounts, next.accounts)
    ensures forall q, m, note ::
      Waits(next.accounts, q, m, note) <==> Waits(st.accounts, q, m, note) && m != n
    ensures forall q, m, note ::
      Held(next.accounts, q, m, note) <==> Held(st.accounts, q, m, note) && m != n
  {
    forall q, m
      ensures Offers(next.accounts, q, m) <==> Offers(st.accounts, q, m) && m != n
      ensures Retains(next.accounts, q, m) <==> Retains(st.accounts, q, m) && m != n
    {
    }
    forall q, m, note
      ensures Waits(next.accounts, q, m, note) <==> Waits(st.accounts, q, m, note) && m != n
      ensures Held(next.accounts, q, m, note) <==> Held(st.accounts, q, m, note) && m != n
    {
      OffersIs(st.accounts, q, m);
      OffersIs(next.accounts, q, m);
    }
  }

  lemma {:induction false} RevertNullifiersEffect(st: Ntx, ns: set<nat>)
    requires WellFiled(st) && RevertNullifiers(st, ns).Some?
    ensures var st' := RevertNullifiers(st, ns).value;
      && SameStates(st.accounts, st'.accounts)
      && (forall q, m, note :: Waits(st'.accounts, q, m, note) <==>
            Waits(st.accounts, q, m, note) || (Held(st.accounts, q, m, note) && m in ns))
      && (forall q, m, note :: Held(st'.accounts, q, m, note) <==>
            Held(st.accounts, q, m, note) && m !in ns)
    decreases ns
  {
    hide WellFiled, Waits, Held;
    if ns != {} {
      var n := Min(ns);
      var p := st.index[n];
      var next := if p !in st.accounts then st
        else st.(accounts := st.accounts[p := st.accounts[p].RevertNullifier(n)]);
      NoteReturned(st, n, next);
      RevertNullifiersEffect(next, ns - {n});
    }
  }

  lemma NoteReturned(st: Ntx, n: nat, next: Ntx)
    requires WellFiled(st) && n in st.index
    requires var p := st.index[n];
      next == if p !in st.accounts then st
              else st.(accounts := st.accounts[p := st.accounts[p].RevertNullifier(n)])
    ensures WellFiled(next) && SameStates(st.accounts, next.accounts)
    ensures forall q, m, note :: Waits(next.accounts, q, m, note) <==>
      Waits(st.accounts, q, m, note) || (Held(st.accounts, q, m, note) && m == n)
    ensures forall q, m, note ::
      Held(next.accounts, q, m, note) <==> Held(st.accounts, q, m, note) && m != n
  {
    forall q, m
      ensures Offers(next.accounts, q, m) <==>
              Offers(st.accounts, q, m) || (Retains(st.accounts, q, m) && m == n)
      ensures Retains(next.accounts, q, m) <==> Retains(st.accounts, q, m) && m != n
    {
    }
    forall q, m, note
      ensures Waits(next.accounts, q, m, note) <==>
              Waits(st.accounts, q, m, note) || (Held(st.accounts, q, m, note) && m == n)
      ensures Held(next.accounts, q, m, note) <==> Held(st.accounts, q, m, note) && m != n
    {
      OffersIs(st.accounts, q, m);
      OffersIs(next.accounts, q, m);
    }
  }

  /** Whether the account is gone with its newest state: it was created by a transaction that is
      not committed, and nothing is left of it. */
  predicate Undone(accounts: map<nat, Acc>, delta: Option<nat>, q: nat) {
    delta == Some(q) && q in accounts && accounts[q].committed.None? && |accounts[q].inflight| == 1
  }

  /** The states of an account after the newest one is taken back. */
  predicate Withdrawn(acc: Acc, acc': Acc) {
    acc.inflight != [] && HasStates(acc', acc.committed, acc.inflight[..|acc.inflight| - 1])
  }

  lemma DeltaReverted(st: Ntx, delta: Option<nat>)
    requires WellFiled(st) && RevertDelta(st, delta).Some?
    ensures var st' := RevertDelta(st, delta).value;
      && WellFiled(st')
      && (forall q :: q in st'.accounts <==> q in st.accounts && !Undone(st.accounts, delta, q))
      && (forall q, n, note :: Waits(st'.accounts, q, n, note) <==>
            Waits(st.accounts, q, n, note) && q in st'.accounts)
      && (forall q, n, note :: Held(st'.accounts, q, n, note) <==>
            Held(st.accounts, q, n, note) && q in st'.accounts)
      && forall q :: q in st'.accounts ==>
           if delta == Some(q) then Withdrawn(st.accounts[q], st'.accounts[q])
           else HasStates(st'.accounts[q], st.accounts[q].committed, st.accounts[q].inflight)
  {
    var st' := RevertDelta(st, delta).value;
    assert forall q, n :: Offers(st'.accounts, q, n) ==> Offers(st.accounts, q, n);
    assert forall q, n :: Retains(st'.accounts, q, n) ==> Retains(st.accounts, q, n);
  }

  /** The whole effect of reverting a transaction on the accounts: the newest state of the one it
      changed is taken back, the notes it created are gone, and those it consumed wait again. */
  lemma RevertedExactly(apply: ApplyDelta, st: Ntx, t: nat)
    requires Inv(apply, st) && t in st.txs && AfterRevert(st, t).Some?
    ensures var impact, st' := st.txs[t], AfterRevert(st, t).value;
      && (forall q :: q in st'.accounts <==>
            q in st.accounts && !Undone(st.accounts, impact.delta, q))
      && (forall q :: q in st'.accounts ==>
            if impact.delta == Some(q) then Withdrawn(st.accounts[q], st'.accounts[q])
            else HasStates(st'.accounts[q], st.accounts[q].committed, st.accounts[q].inflight))
      && (forall q, n, note :: Waits(st'.accounts, q, n, note) <==>
            q in st'.accounts && n !in impact.notes &&
            (Waits(st.accounts, q, n, note) ||
             (Held(st.accounts, q, n, note) && n in impact.nullifiers)))
      && (forall q, n, note :: Held(st'.accounts, q, n, note) <==>
            q in st'.accounts && n !in impact.notes + impact.nullifiers &&
            Held(st.accounts, q, n, note))
  {
    MidwayFiled(apply, st, st.txs, Consumed(st.txs));
    var untracked := st.(txs := st.txs - {t});
    assert WellFiled(untracked);
    hide Inv, WellFiled, Waits, Held, RevertDelta, RevertNotes, RevertNullifiers, Undone;
    DeltaReverted(untracked, st.txs[t].delta);
    var changed := RevertDelta(untracked, st.txs[t].delta).value;
    RevertNotesEffect(changed, st.txs[t].notes);
    RevertNullifiersEffect(RevertNotes(changed, st.txs[t].notes).value, st.txs[t].nullifiers);
  }
}
