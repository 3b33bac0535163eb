/** What every event keeps in the network transaction builder, and exactly when adding or committing
    a transaction makes a lookup fail. */
module NtxInvariant {
  import opened Prelude
  import opened NtxAccounts
  import opened NtxStates
  import opened NtxRevert

  // ---------------------------------------------------------------------------------------------
  // One account

  /** The states in flight follow from the committed one by some updates, and no note is both
      waiting and consumed. */
  ghost predicate Sane(apply: ApplyDelta, acc: Acc) {
    exists updates :: Sound(apply, acc, updates)
  }

  /** The notes of the account are in the index under its name, and those that wait are not
      consumed by a tracked transaction. */
  predicate Filed(p: nat, acc: Acc, index: map<nat, nat>, used: set<nat>) {
    && (forall n :: n in acc.available.Keys + acc.nullified.Keys ==> n in index && index[n] == p)
    && acc.available.Keys !! used
  }

  lemma SaneNew(apply: ApplyDelta, account: nat)
    ensures Sane(apply, Acc(None, [account], map[], map[]))
    ensures Sane(apply, Acc(Some(account), [], map[], map[]))
  {
    var updates := [Created(account)];
    assert updates[..0] == [] && Running(apply, None, []) == Some([]);
    assert [] + [account] == [account];
    assert Sound(apply, Acc(None, [account], map[], map[]), updates);
    assert Sound(apply, Acc(Some(account), [], map[], map[]), []);
  }

  lemma SanePush(apply: ApplyDelta, acc: Acc, delta: nat)
    requires Sane(apply, acc) && acc.CanAddDelta(apply, delta)
    ensures Sane(apply, acc.AddDelta(apply, delta))
  {
    var updates :| Sound(apply, acc, updates);
    RunningPush(apply, acc.committed, updates, Changed(delta));
    assert Sound(apply, acc.AddDelta(apply, delta), updates + [Changed(delta)]);
  }

  lemma SanePop(apply: ApplyDelta, acc: Acc)
    requires Sane(apply, acc) && acc.inflight != []
    ensures Sane(apply, acc.CommitDelta()) && Sane(apply, acc.RevertDelta())
  {
    var updates :| Sound(apply, acc, updates);
    RunningLength(apply, acc.committed, updates);
    RunningPop(apply, acc.committed, updates);
    assert Sound(apply, acc.CommitDelta(), updates[1..]);
    assert Sound(apply, acc.RevertDelta(), updates[..|updates| - 1]);
  }

  lemma SaneNotes(apply: ApplyDelta, acc: Acc, acc': Acc)
    requires Sane(apply, acc) && acc' == acc.(available := acc'.available,
                                              nullified := acc'.nullified)
    requires acc'.available.Keys !! acc'.nullified.Keys
    ensures Sane(apply, acc')
  {
    var updates :| Sound(apply, acc, updates);
    assert Sound(apply, acc', updates);
  }

  lemma SaneDisjoint(apply: ApplyDelta, acc: Acc)
    requires Sane(apply, acc)
    ensures acc.available.Keys !! acc.nullified.Keys
  {
  }

  // ---------------------------------------------------------------------------------------------
  // The whole state

  /** The notes consumed by tracked transactions. */
  function Consumed(txs: map<nat, Impact>): set<nat> {
    set t, n | t in txs && n in txs[t].nullifiers :: n
  }

  ghost predicate Orderly(apply: ApplyDelta, accounts: map<nat, Acc>, index: map<nat, nat>,
                          used: set<nat>)
  {
    forall p :: p in accounts ==>
      Sane(apply, accounts[p]) && Filed(p, accounts[p], index, used)
  }

  /** In order, apart from what is recorded of the transactions. */
  ghost predicate Midway(apply: ApplyDelta, st: Ntx, txs: map<nat, Impact>, used: set<nat>) {
    var midway :=
      && Balanced(st.accounts, txs)
      && Orderly(apply, st.accounts, st.index, used)
      && st.accounts.Keys <= Elems(st.queue);
    midway
  }

  ghost predicate Inv(apply: ApplyDelta, st: Ntx) {
    var inv :=
      && Midway(apply, st, st.txs, Consumed(st.txs))
      && CreatedOnce(st.txs) && ConsumedOnce(st.txs)
      && Indexed(st.index.Keys, st.txs);
    inv
  }

  ghost predicate Findable(index: set<nat>, txs: map<nat, Impact>) {
    forall t :: t in txs ==> txs[t].nullifiers <= index
  }

  /** What is left of the invariant in the middle of a block: the consumer of a note may be
      committed before its creator, and takes the note out of the index. */
  ghost predicate WithinBlock(apply: ApplyDelta, st: Ntx) {
    var within :=
      && Midway(apply, st, st.txs, Consumed(st.txs))
      && CreatedOnce(st.txs) && ConsumedOnce(st.txs)
      && Findable(st.index.Keys, st.txs);
    within
  }

  lemma InvIs(apply: ApplyDelta, st: Ntx)
    ensures Inv(apply, st) <==> WithinBlock(apply, st) && Indexed(st.index.Keys, st.txs)
  {
    hide Midway, CreatedOnce, ConsumedOnce, Consumed;
  }

  lemma OrderlyWith(apply: ApplyDelta, accounts: map<nat, Acc>, index: map<nat, nat>,
                    used: set<nat>, p: nat, acc: Acc)
    requires Orderly(apply, accounts, index, used)
    requires Sane(apply, acc) && Filed(p, acc, index, used)
    ensures Orderly(apply, accounts[p := acc], index, used)
  {
    hide Sane, Filed;
  }

  lemma OrderlyWithout(apply: ApplyDelta, accounts: map<nat, Acc>, index: map<nat, nat>,
                       used: set<nat>, p: nat)
    requires Orderly(apply, accounts, index, used)
    ensures Orderly(apply, accounts - {p}, index, used)
    ensures p in accounts ==> Sane(apply, accounts[p]) && Filed(p, accounts[p], index, used)
  {
    hide Sane, Filed;
  }

  lemma EmptyInv(apply: ApplyDelta)
    ensures Inv(apply, Empty())
  {
  }

  lemma InvTracked(apply: ApplyDelta, st: Ntx)
    requires Inv(apply, st)
    ensures Tracked(st)
  {
  }

  // ---------------------------------------------------------------------------------------------
  // Adding

  /** Whether the account is tracked and has the note waiting. */
  predicate Offers(accounts: map<nat, Acc>, p: nat, n: nat) {
    p in accounts && n in accounts[p].available
  }

  /** Whether the account is tracked and has the note as consumed. */
  predicate Retains(accounts: map<nat, Acc>, p: nat, n: nat) {
    p in accounts && n in accounts[p].nullified
  }

  lemma CountMore(txs: map<nat, Impact>, id: nat, impact: Impact, p: nat)
    requires id !in txs
    ensures |Changing(txs[id := impact], p)| ==
            |Changing(txs, p)| + if impact.delta == Some(p) then 1 else 0
  {
    var more := if impact.delta == Some(p) then {id} else {};
    assert Changing(txs[id := impact], p) == Changing(txs, p) + more;
  }

  /** Only the deltas matter for the balance. */
  lemma SameDeltas(accounts: map<nat, Acc>, txs: map<nat, Impact>, id: nat, impact: Impact,
                   impact': Impact)
    requires id !in txs && impact.delta == impact'.delta
    requires Balanced(accounts, txs[id := impact])
    ensures Balanced(accounts, txs[id := impact'])
    ensures impact.delta.None? ==> Balanced(accounts, txs)
  {
    var a, b := txs[id := impact], txs[id := impact'];
    forall p
      ensures |Changing(a, p)| == |Changing(b, p)|
      ensures impact.delta.None? ==> |Changing(a, p)| == |Changing(txs, p)|
    {
      CountMore(txs, id, impact, p);
      CountMore(txs, id, impact', p);
    }
    assert forall t :: t in b ==> t in a && b[t].delta == a[t].delta;
    assert forall t :: t in txs ==> t in a && txs[t] == a[t];
  }

  /** A newcomer from the store. */
  lemma JoinKeeps(apply: ApplyDelta, st: Ntx, p: nat, account: nat, txs: map<nat, Impact>,
                  used: set<nat>)
    requires Midway(apply, st, txs, used) && p !in st.accounts
    ensures Midway(apply, st.(accounts := st.accounts[p := Acc(Some(account), [], map[], map[])],
                              queue := st.queue + [p]), txs, used)
  {
    SaneNew(apply, account);
    hide Sane;
    assert Changing(txs, p) == {};
    assert Elems(st.queue + [p]) == Elems(st.queue) + {p};
  }

  lemma FetchKeeps(apply: ApplyDelta, store: nat -> Option<nat>, st: Ntx, p: nat,
                   txs: map<nat, Impact>, used: set<nat>)
    requires Midway(apply, st, txs, used)
    ensures var st' := Fetch(store, st, p);
      && Midway(apply, st', txs, used)
      && st'.index == st.index && st'.txs == st.txs && st'.busy == st.busy
      && (forall q, n :: Offers(st'.accounts, q, n) <==> Offers(st.accounts, q, n))
      && (forall q, n :: Retains(st'.accounts, q, n) <==> Retains(st.accounts, q, n))
      && st'.accounts.Keys == st.accounts.Keys + if store(p).Some? then {p} else {}
  {
    hide Midway;
    if p !in st.accounts && store(p).Some? {
      JoinKeeps(apply, st, p, store(p).value, txs, used);
    }
  }

  lemma NewBalanced(accounts: map<nat, Acc>, txs: map<nat, Impact>, id: nat, p: nat, acc: Acc)
    requires Balanced(accounts, txs) && id !in txs && p !in accounts
    requires acc.Known() && |acc.inflight| == 1
    ensures Balanced(accounts[p := acc], txs[id := Impact(Some(p), {}, {})])
  {
    assert Changing(txs, p) == {};
    forall q {
      CountMore(txs, id, Impact(Some(p), {}, {}), q);
    }
  }

  lemma NewKeeps(apply: ApplyDelta, st: Ntx, id: nat, p: nat, account: nat, used: set<nat>)
    requires Midway(apply, st, st.txs, used) && id !in st.txs && p !in st.accounts
    ensures var acc := Acc(None, [account], map[], map[]);
      Midway(apply, st.(accounts := st.accounts[p := acc], queue := st.queue + [p],
                        busy := st.busy - {p}),
             st.txs[id := Impact(Some(p), {}, {})], used)
  {
    var acc := Acc(None, [account], map[], map[]);
    SaneNew(apply, account);
    OrderlyWith(apply, st.accounts, st.index, used, p, acc);
    NewBalanced(st.accounts, st.txs, id, p, acc);
    hide Sane, Filed, Orderly, Balanced;
    assert Elems(st.queue + [p]) == Elems(st.queue) + {p};
  }

  lemma DeltaBalanced(accounts: map<nat, Acc>, txs: map<nat, Impact>, id: nat, p: nat, acc: Acc)
    requires Balanced(accounts, txs) && id !in txs && p in accounts
    requires acc.Known() && |acc.inflight| == |accounts[p].inflight| + 1
    ensures Balanced(accounts[p := acc], txs[id := Impact(Some(p), {}, {})])
  {
    forall q {
      CountMore(txs, id, Impact(Some(p), {}, {}), q);
    }
  }

  lemma DeltaKeeps(apply: ApplyDelta, st: Ntx, id: nat, p: nat, delta: nat, busy: set<nat>,
                   used: set<nat>)
    requires Midway(apply, st, st.txs, used) && id !in st.txs && p in st.accounts
    requires st.accounts[p].CanAddDelta(apply, delta)
    ensures Midway(apply, st.(accounts := st.accounts[p := st.accounts[p].AddDelta(apply, delta)],
                              busy := busy),
                   st.txs[id := Impact(Some(p), {}, {})], used)
  {
    var acc := st.accounts[p].AddDelta(apply, delta);
    OrderlyWithout(apply, st.accounts, st.index, used, p);
    SanePush(apply, st.accounts[p], delta);
    OrderlyWith(apply, st.accounts, st.index, used, p, acc);
    DeltaBalanced(st.accounts, st.txs, id, p, acc);
    hide Sane, Filed, Orderly, Balanced;
  }

  function Prefix(update: Option<AccountUpdate>): Option<nat> {
    if update.None? then None else Some(update.value.prefix)
  }

  /** An account is created once. */
  predicate CreatesNew(st: Ntx, update: Option<AccountUpdate>) {
    update.Some? && update.value.New? ==> update.value.prefix !in st.accounts
  }

  lemma UpdateKeeps(apply: ApplyDelta, store: nat -> Option<nat>, st: Ntx, id: nat,
                    update: Option<AccountUpdate>, used: set<nat>)
    requires Midway(apply, st, st.txs, used) && id !in st.txs && CreatesNew(st, update)
    requires AddUpdate(apply, store, st, update).Done?
    ensures var st' := AddUpdate(apply, store, st, update).state;
      && Midway(apply, st', st.txs[id := Impact(Prefix(update), {}, {})], used)
      && st'.index == st.index && st'.txs == st.txs
      && (forall q, n :: Offers(st'.accounts, q, n) <==> Offers(st.accounts, q, n))
      && (forall q, n :: Retains(st'.accounts, q, n) <==> Retains(st.accounts, q, n))
      && st'.accounts.Keys == st.accounts.Keys + if update.Some? then {update.value.prefix} else {}
  {
    hide Midway;
    if update.None? {
      NoChange(apply, st, id, used);
    } else {
      var p := update.value.prefix;
      if update.value.New? {
        NewKeeps(apply, st, id, p, update.value.account, used);
      } else {
        FetchKeeps(apply, store, st, p, st.txs, used);
        DeltaKeeps(apply, Fetch(store, st, p), id, p, update.value.delta, st.busy - {p}, used);
      }
    }
  }

  lemma NoChange(apply: ApplyDelta, st: Ntx, id: nat, used: set<nat>)
    requires Midway(apply, st, st.txs, used) && id !in st.txs
    ensures Midway(apply, st, st.txs[id := Impact(None, {}, {})], used)
  {
    forall q {
      CountMore(st.txs, id, Impact(None, {}, {}), q);
    }
  }

  lemma NoteKeeps(apply: ApplyDelta, store: nat -> Option<nat>, st: Ntx, note: Note,
                  txs: map<nat, Impact>, used: set<nat>)
    requires Midway(apply, st, txs, used)
    requires note.nullifier !in st.index && note.nullifier !in used
    ensures Midway(apply, AddNote(store, st, note), txs, used)
  {
    var p, indexed := note.account, st.(index := st.index[note.nullifier := note.account]);
    assert Midway(apply, indexed, txs, used) by {
      hide Sane, Balanced;
    }
    NotHeld(apply, st, p, note.nullifier, txs, used);
    hide Midway;
    FetchKeeps(apply, store, indexed, p, txs, used);
    var fetched := Fetch(store, indexed, p);
    if p in fetched.accounts {
      FetchedHolds(store, indexed, p, p);
      hide Fetch;
      PutNote(apply, fetched, note, txs, used);
    }
  }

  /** What adding a note does to the index, to who is tracked and to who offers what. */
  lemma NoteOffers(store: nat -> Option<nat>, st: Ntx, note: Note)
    ensures var st' := AddNote(store, st, note);
      && st'.index == st.index[note.nullifier := note.account] && st'.txs == st.txs
      && st'.accounts.Keys ==
         st.accounts.Keys + (if store(note.account).Some? then {note.account} else {})
      && (forall q, n :: Retains(st'.accounts, q, n) <==> Retains(st.accounts, q, n))
      && forall q, n :: Offers(st'.accounts, q, n) <==>
           Offers(st.accounts, q, n) ||
           (q == note.account && n == note.nullifier && q in st'.accounts)
  {
  }

  /** A note that is not in the index is held by nobody. */
  lemma NotHeld(apply: ApplyDelta, st: Ntx, p: nat, n: nat, txs: map<nat, Impact>, used: set<nat>)
    requires Midway(apply, st, txs, used) && n !in st.index
    ensures p in st.accounts ==> n !in st.accounts[p].available && n !in st.accounts[p].nullified
  {
    if p in st.accounts {
      assert Filed(p, st.accounts[p], st.index, used);
    }
  }

  lemma FetchedHolds(store: nat -> Option<nat>, st: Ntx, p: nat, q: nat)
    ensures var st' := Fetch(store, st, p);
      q in st'.accounts ==>
        if q in st.accounts then st'.accounts[q] == st.accounts[q]
        else st'.accounts[q].available == map[] && st'.accounts[q].nullified == map[]
  {
  }

  lemma PutNote(apply: ApplyDelta, st: Ntx, note: Note, txs: map<nat, Impact>, used: set<nat>)
    requires Midway(apply, st, txs, used) && note.account in st.accounts
    requires note.nullifier in st.index && st.index[note.nullifier] == note.account
    requires note.nullifier !in used && note.nullifier !in st.accounts[note.account].nullified
    ensures var acc := st.accounts[note.account].AddNote(note);
      Midway(apply, st.(accounts := st.accounts[note.account := acc]), txs, used)
  {
    var p := note.account;
    var acc := st.accounts[p].AddNote(note);
    SaneDisjoint(apply, st.accounts[p]);
    SaneNotes(apply, st.accounts[p], acc);
    Replaced(apply, st, p, acc, txs, used);
  }

  /** Changing the notes of one account. */
  lemma Replaced(apply: ApplyDelta, st: Ntx, p: nat, acc: Acc, txs: map<nat, Impact>,
                 used: set<nat>)
    requires Midway(apply, st, txs, used) && p in st.accounts
    requires acc == st.accounts[p].(available := acc.available, nullified := acc.nullified)
    requires Sane(apply, acc) && Filed(p, acc, st.index, used)
    ensures Midway(apply, st.(accounts := st.accounts[p := acc]), txs, used)
  {
    hide Sane, Filed;
    var accounts := st.accounts[p := acc];
    assert SameStates(st.accounts, accounts);
    SameStatesBalanced(st.accounts, accounts, txs);
  }

  /** The notes are new. */
  ghost predicate CreatesOnce(index: set<nat>, notes: seq<Note>) {
    && (forall i, j :: 0 <= i < j < |notes| ==> notes[i].nullifier != notes[j].nullifier)
    && Nullifiers(notes) !! index
  }

  /** The account of a note is known by the time the notes are added. */
  predicate HasAccount(store: nat -> Option<nat>, accounts: set<nat>, p: nat) {
    p in accounts || store(p).Some?
  }

  lemma {:induction false} NotesKeep(apply: ApplyDelta, store: nat -> Option<nat>, st: Ntx,
                                     notes: seq<Note>, txs: map<nat, Impact>, used: set<nat>)
    requires Midway(apply, st, txs, used) && used <= st.index.Keys
    requires CreatesOnce(st.index.Keys, notes)
    ensures var st' := AddNotes(store, st, notes);
      && Midway(apply, st', txs, used) && st'.txs == st.txs
      && st'.index.Keys == st.index.Keys + Nullifiers(notes)
      && (forall n :: n in st.index ==> st'.index[n] == st.index[n])
      && (forall note :: note in notes ==> st'.index[note.nullifier] == note.account)
      && (forall q :: q in st'.accounts ==> HasAccount(store, st.accounts.Keys, q))
      && (forall q, n :: Retains(st'.accounts, q, n) <==> Retains(st.accounts, q, n))
      && (forall note :: note in notes && HasAccount(store, st.accounts.Keys, note.account) ==>
            Offers(st'.accounts, note.account, note.nullifier))
      && (forall q :: q in st.accounts ==> q in st'.accounts)
      && forall q, n :: n !in Nullifiers(notes) ==>
           (Offers(st'.accounts, q, n) <==> Offers(st.accounts, q, n))
    decreases |notes|
  {
    hide Midway;
    if notes != [] {
      var f, note := notes[..|notes| - 1], notes[|notes| - 1];
      assert notes == f + [note];
      assert note.nullifier !in Nullifiers(f);
      assert Nullifiers(notes) == Nullifiers(f) + {note.nullifier};
      NotesKeep(apply, store, st, f, txs, used);
      var before := AddNotes(store, st, f);
      hide AddNote;
      NoteKeeps(apply, store, before, note, txs, used);
      NoteOffers(store, before, note);
    }
  }

  /** A nullifier that is indexed and cannot be consumed. */
  predicate Refused(st: Ntx, ns: seq<nat>, i: nat)
    requires i < |ns|
  {
    ns[i] in st.index && (!Offers(st.accounts, st.index[ns[i]], ns[i]) || ns[i] in ns[..i])
  }

  lemma AccountConsumes(apply: ApplyDelta, p: nat, acc: Acc, n: nat, index: map<nat, nat>,
                        used: set<nat>)
    requires Sane(apply, acc) && Filed(p, acc, index, used) && n in acc.available
    ensures n !in used
    ensures Sane(apply, acc.AddNullifier(n)) && Filed(p, acc.AddNullifier(n), index, used + {n})
  {
    SaneDisjoint(apply, acc);
    SaneNotes(apply, acc, acc.AddNullifier(n));
    hide Sane;
  }

  lemma NullifierKeeps(apply: ApplyDelta, st: Ntx, n: nat, txs: map<nat, Impact>, used: set<nat>)
    requires Midway(apply, st, txs, used) && AddNullifier(st, n).Some?
    ensures n in st.index ==> n !in used
    ensures Midway(apply, AddNullifier(st, n).value, txs, used + {n} * st.index.Keys)
  {
    if n in st.index {
      var p := st.index[n];
      var acc := st.accounts[p].AddNullifier(n);
      assert {n} * st.index.Keys == {n};
      OrderlyWithout(apply, st.accounts, st.index, used, p);
      AccountConsumes(apply, p, st.accounts[p], n, st.index, used);
      hide Sane, Filed;
      OthersOrderly(apply, st, n, acc, used);
      hide Orderly;
      var accounts := st.accounts[p := acc];
      assert SameStates(st.accounts, accounts);
      SameStatesBalanced(st.accounts, accounts, txs);
      hide Balanced, SameStates;
    } else {
      assert {n} * st.index.Keys == {};
      assert used + {} == used;
    }
  }

  /** Consuming a note of one account does not concern the others. */
  lemma OthersOrderly(apply: ApplyDelta, st: Ntx, n: nat, acc: Acc, used: set<nat>)
    requires Orderly(apply, st.accounts, st.index, used) && n in st.index
    requires Sane(apply, acc) && Filed(st.index[n], acc, st.index, used + {n})
    ensures Orderly(apply, st.accounts[st.index[n] := acc], st.index, used + {n})
  {
    hide Sane;
    forall q | q in st.accounts && q != st.index[n]
      ensures Filed(q, st.accounts[q], st.index, used + {n})
    {
      assert Filed(q, st.accounts[q], st.index, used);
    }
    hide Filed;
  }

  lemma NullifierMoves(st: Ntx, n: nat)
    requires AddNullifier(st, n).Some?
    ensures var st' := AddNullifier(st, n).value;
      && st'.index == st.index && st'.txs == st.txs && st'.queue == st.queue
      && st'.accounts.Keys == st.accounts.Keys
      && (forall q, m :: Retains(st'.accounts, q, m) <==>
            Retains(st.accounts, q, m) || (m == n && m in st.index && q == st.index[m]))
      && forall q, m :: m != n || (m in st.index && q == st.index[m]) ==>
           (Offers(st'.accounts, q, m) <==> Offers(st.accounts, q, m) && m != n)
  {
  }

  /** Nobody else offers a note in the index. */
  lemma OffersFiled(apply: ApplyDelta, st: Ntx, txs: map<nat, Impact>, used: set<nat>)
    requires Midway(apply, st, txs, used)
    ensures forall q, m :: Offers(st.accounts, q, m) ==> m in st.index && st.index[m] == q
  {
    forall q, m | Offers(st.accounts, q, m) ensures m in st.index && st.index[m] == q {
      assert Filed(q, st.accounts[q], st.index, used);
    }
  }

  lemma {:induction false} NullifiersKeep(apply: ApplyDelta, st: Ntx, ns: seq<nat>,
                                          txs: map<nat, Impact>, used: set<nat>)
    requires Midway(apply, st, txs, used)
    ensures AddNullifiers(st, ns).None? <==> exists i :: 0 <= i < |ns| && Refused(st, ns, i)
    ensures AddNullifiers(st, ns).Some? ==>
      var st' := AddNullifiers(st, ns).value;
      && Elems(ns) * st.index.Keys !! used
      && Midway(apply, st', txs, used + Elems(ns) * st.index.Keys)
      && st'.index == st.index && st'.txs == st.txs && st'.queue == st.queue
      && st'.accounts.Keys == st.accounts.Keys
      && (forall q, m :: Retains(st'.accounts, q, m) <==>
            Retains(st.accounts, q, m) || (m in ns && m in st.index && q == st.index[m]))
      && forall q, m :: m in st.index ==>
           (Offers(st'.accounts, q, m) <==> Offers(st.accounts, q, m) && m !in ns)
    decreases |ns|
  {
    hide Midway;
    if ns == [] {
      assert Elems(ns) * st.index.Keys == {} && used + {} == used;
    } else {
      var k, n := |ns| - 1, ns[|ns| - 1];
      var f := ns[..k];
      assert ns == f + [n];
      NullifiersKeep(apply, st, f, txs, used);
      assert forall i :: 0 <= i < k ==> ns[..i] == f[..i];
      assert forall i :: 0 <= i < k ==> (Refused(st, ns, i) <==> Refused(st, f, i));
      if AddNullifiers(st, f).Some? {
        var before := AddNullifiers(st, f).value;
        assert AddNullifier(before, n).None? <==> Refused(st, ns, k);
        hide Refused, AddNullifier;
        if AddNullifier(before, n).Some? {
          NullifierKeeps(apply, before, n, txs, used + Elems(f) * st.index.Keys);
          OffersFiled(apply, before, txs, used + Elems(f) * st.index.Keys);
          OffersFiled(apply, AddNullifier(before, n).value, txs,
                      used + Elems(f) * st.index.Keys + {n} * st.index.Keys);
          NullifierMoves(before, n);
          assert used + Elems(f) * st.index.Keys + {n} * st.index.Keys ==
                 used + Elems(ns) * st.index.Keys;
        }
      }
    }
  }

  lemma ConsumedMore(txs: map<nat, Impact>, id: nat, impact: Impact)
    requires id !in txs
    ensures Consumed(txs[id := impact]) == Consumed(txs) + impact.nullifiers
  {
    var txs' := txs[id := impact];
    forall n | n in Consumed(txs) + impact.nullifiers ensures n in Consumed(txs') {
      if n in Consumed(txs) {
        var t :| t in txs && n in txs[t].nullifiers;
        assert t in txs' && n in txs'[t].nullifiers;
      } else {
        assert id in txs' && n in txs'[id].nullifiers;
      }
    }
  }

  lemma ConsumedFindable(index: set<nat>, txs: map<nat, Impact>)
    requires Findable(index, txs)
    ensures Consumed(txs) <= index
  {
  }

  lemma ConsumedIndexed(index: set<nat>, txs: map<nat, Impact>)
    requires Indexed(index, txs)
    ensures Consumed(txs) <= index
  {
  }

  /** Recording the transaction once everything it does is done. */
  lemma Recording(apply: ApplyDelta, st: Ntx, txs: map<nat, Impact>, id: nat, impact: Impact)
    requires id !in txs
    requires Midway(apply, st, txs[id := Impact(impact.delta, {}, {})],
                    Consumed(txs) + impact.nullifiers)
    ensures var txs' := txs[id := impact];
      Midway(apply, st.(txs := txs'), txs', Consumed(txs'))
    ensures impact == Impact(None, {}, {}) ==> Midway(apply, st, txs, Consumed(txs))
  {
    ConsumedMore(txs, id, impact);
    SameDeltas(st.accounts, txs, id, Impact(impact.delta, {}, {}), impact);
    assert Consumed(txs) + {} == Consumed(txs);
    hide Consumed, Sane, Filed, Balanced;
  }

  lemma OnceMore(index: set<nat>, txs: map<nat, Impact>, id: nat, impact: Impact,
                 index': set<nat>)
    requires id !in txs && CreatedOnce(txs) && ConsumedOnce(txs) && Indexed(index, txs)
    requires impact.notes !! index && impact.nullifiers !! Consumed(txs)
    requires index <= index' && impact.notes + impact.nullifiers <= index'
    ensures Indexed(index', txs)
    ensures var txs' := txs[id := impact];
      CreatedOnce(txs') && ConsumedOnce(txs') && Indexed(index', txs')
  {
    forall t | t in txs
      ensures txs[t].notes <= index && txs[t].nullifiers <= Consumed(txs)
    {
    }
  }

  /** A transaction that was added leaves everything in order, whatever it creates and consumes. */
  lemma AddKeeps(apply: ApplyDelta, store: nat -> Option<nat>, st: Ntx, id: nat,
                 update: Option<AccountUpdate>, notes: seq<Note>, ns: seq<nat>)
    requires Inv(apply, st) && id !in st.txs
    requires CreatesNew(st, update) && CreatesOnce(st.index.Keys, notes)
    requires AfterAdd(apply, store, st, id, update, notes, ns).Done?
    ensures var st' := AfterAdd(apply, store, st, id, update, notes, ns).state;
      && Inv(apply, st')
      && var now := Elems(ns) * st'.index.Keys;
         && Consumed(st'.txs) == Consumed(st.txs) + now && now !! Consumed(st.txs)
         && (forall n :: n in st.index ==> n in st'.index && st'.index[n] == st.index[n])
         && (forall q, n :: Retains(st'.accounts, q, n) <==>
               Retains(st.accounts, q, n) || (n in now && q == st'.index[n]))
  {
    hide Midway, AddNotes, AddNullifiers, AddUpdate, Consumed, CreatedOnce, ConsumedOnce, Indexed;
    var used := Consumed(st.txs);
    var updated := AddUpdate(apply, store, st, update).state;
    var txs' := st.txs[id := Impact(Prefix(update), {}, {})];
    ConsumedIndexed(st.index.Keys, st.txs);
    UpdateKeeps(apply, store, st, id, update, used);
    NotesKeep(apply, store, updated, notes, txs', used);
    var noted := AddNotes(store, updated, notes);
    NullifiersKeep(apply, noted, ns, txs', used);
    var nullified := AddNullifiers(noted, ns).value;
    var impact := Impact(Prefix(update), Nullifiers(notes), Elems(ns) * noted.index.Keys);
    Recording(apply, nullified, st.txs, id, impact);
    ConsumedMore(st.txs, id, impact);
    OnceMore(st.index.Keys, st.txs, id, impact, noted.index.Keys);
  }

  // ---------------------------------------------------------------------------------------------
  // When adding fails

  /** The account that changed is neither tracked nor known to the store. */
  predicate UnknownAccount(store: nat -> Option<nat>, st: Ntx, update: Option<AccountUpdate>) {
    update.Some? && update.value.Delta? &&
    !HasAccount(store, st.accounts.Keys, update.value.prefix)
  }

  /** The delta does not apply to the latest state of the account. */
  ghost predicate DeltaRefused(apply: ApplyDelta, store: nat -> Option<nat>, st: Ntx,
                               update: Option<AccountUpdate>)
    requires forall p :: p in st.accounts ==> st.accounts[p].Known()
  {
    update.Some? && update.value.Delta? &&
    var p := update.value.prefix;
    if p in st.accounts then apply(st.accounts[p].Latest(), update.value.delta).None?
    else store(p).Some? && apply(store(p).value, update.value.delta).None?
  }

  /** The consumed note is one the builder has heard of, but it does not wait for its account: the
      account was unknown when the note came, or has been dropped since, or the note is consumed
      already. */
  ghost predicate NoteMissing(store: nat -> Option<nat>, st: Ntx, update: Option<AccountUpdate>,
                              notes: seq<Note>, n: nat)
  {
    if n in Nullifiers(notes) then
      var known := st.accounts.Keys + if update.Some? then {update.value.prefix} else {};
      exists note :: note in notes && note.nullifier == n && !HasAccount(store, known, note.account)
    else n in st.index && !Offers(st.accounts, st.index[n], n)
  }

  ghost predicate NullifierRefused(store: nat -> Option<nat>, st: Ntx,
                                   update: Option<AccountUpdate>, notes: seq<Note>,
                                   ns: seq<nat>, i: nat)
    requires i < |ns|
  {
    || NoteMissing(store, st, update, notes, ns[i])
    || (ns[i] in Nullifiers(notes) + st.index.Keys && ns[i] in ns[..i])
  }

  lemma KnownAccounts(apply: ApplyDelta, st: Ntx)
    requires Inv(apply, st)
    ensures forall p :: p in st.accounts ==> st.accounts[p].Known()
  {
  }

  /** Adding a new transaction reports an unknown account exactly when the account it changed is
      unknown, and panics otherwise exactly when the delta does not apply or when it consumes a
      note that does not wait, or the same note twice. */
  lemma AddFails(apply: ApplyDelta, store: nat -> Option<nat>, st: Ntx, id: nat,
                 update: Option<AccountUpdate>, notes: seq<Note>, ns: seq<nat>)
    requires Inv(apply, st) && id !in st.txs
    requires CreatesNew(st, update) && CreatesOnce(st.index.Keys, notes)
    requires forall p :: p in st.accounts ==> st.accounts[p].Known()
    ensures var added := AfterAdd(apply, store, st, id, update, notes, ns);
      && (added.Unknown? <==> UnknownAccount(store, st, update))
      && (added.Panic? <==>
            (!UnknownAccount(store, st, update) &&
             (DeltaRefused(apply, store, st, update) ||
              exists i :: 0 <= i < |ns| && NullifierRefused(store, st, update, notes, ns, i))))
  {
    UpdateFails(apply, store, st, update);
    hide Inv, AddNotes, AddNullifiers, AddUpdate, UnknownAccount, DeltaRefused, NullifierRefused;
    hide CreatesNew, CreatesOnce;
    if AddUpdate(apply, store, st, update).Done? {
      NullifiersFail(apply, store, st, id, update, notes, ns);
    }
  }

  lemma {:induction false} NullifiersFail(apply: ApplyDelta, store: nat -> Option<nat>, st: Ntx,
                                          id: nat, update: Option<AccountUpdate>, notes: seq<Note>,
                                          ns: seq<nat>)
    requires Inv(apply, st) && id !in st.txs
    requires CreatesNew(st, update) && CreatesOnce(st.index.Keys, notes)
    requires AddUpdate(apply, store, st, update).Done?
    ensures var noted := AddNotes(store, AddUpdate(apply, store, st, update).state, notes);
      AddNullifiers(noted, ns).None? <==>
      exists i :: 0 <= i < |ns| && NullifierRefused(store, st, update, notes, ns, i)
  {
    hide Midway, AddNotes, AddNullifiers, AddUpdate, Consumed, CreatedOnce, ConsumedOnce, Indexed;
    var updated := AddUpdate(apply, store, st, update).state;
    var used := Consumed(st.txs);
    var txs' := st.txs[id := Impact(Prefix(update), {}, {})];
    ConsumedIndexed(st.index.Keys, st.txs);
    UpdateKeeps(apply, store, st, id, update, used);
    NotesKeep(apply, store, updated, notes, txs', used);
    var noted := AddNotes(store, updated, notes);
    NullifiersKeep(apply, noted, ns, txs', used);
    hide HasAccount, Offers, Retains, CreatesOnce;
    forall i | 0 <= i < |ns|
      ensures Refused(noted, ns, i) <==> NullifierRefused(store, st, update, notes, ns, i)
    {
      MissingExactly(store, st, update, updated, notes, ns[i]);
    }
  }

  lemma UpdateFails(apply: ApplyDelta, store: nat -> Option<nat>, st: Ntx,
                    update: Option<AccountUpdate>)
    requires forall p :: p in st.accounts ==> st.accounts[p].Known()
    ensures var added := AddUpdate(apply, store, st, update);
      && (added.Unknown? <==> UnknownAccount(store, st, update))
      && (added.Panic? <==> DeltaRefused(apply, store, st, update))
  {
  }

  lemma {:induction false} MissingExactly(store: nat -> Option<nat>, st: Ntx,
                                          update: Option<AccountUpdate>, updated: Ntx,
                                          notes: seq<Note>, n: nat)
    requires CreatesOnce(st.index.Keys, notes) && updated.index == st.index
    requires forall q, m :: Offers(updated.accounts, q, m) <==> Offers(st.accounts, q, m)
    requires updated.accounts.Keys ==
      st.accounts.Keys + if update.Some? then {update.value.prefix} else {}
    requires var st' := AddNotes(store, updated, notes);
      && st'.index.Keys == updated.index.Keys + Nullifiers(notes)
      && (forall m :: m in updated.index ==> st'.index[m] == updated.index[m])
      && (forall note :: note in notes ==> st'.index[note.nullifier] == note.account)
      && (forall q :: q in st'.accounts ==> HasAccount(store, updated.accounts.Keys, q))
      && (forall note :: note in notes &&
                         HasAccount(store, updated.accounts.Keys, note.account) ==>
            Offers(st'.accounts, note.account, note.nullifier))
      && forall q, m :: m !in Nullifiers(notes) ==>
           (Offers(st'.accounts, q, m) <==> Offers(updated.accounts, q, m))
    ensures var noted := AddNotes(store, updated, notes);
      n in noted.index && !Offers(noted.accounts, noted.index[n], n) <==>
      NoteMissing(store, st, update, notes, n)
  {
    hide AddNotes, HasAccount;
    var noted := AddNotes(store, updated, notes);
    if n in Nullifiers(notes) {
      var note :| note in notes && note.nullifier == n;
      assert forall other :: other in notes && other.nullifier == n ==>
        noted.index[n] == other.account;
    }
  }

  // ---------------------------------------------------------------------------------------------
  // Committing

  /** The account of the note is tracked, but does not have the note as consumed. */
  predicate Lapsed(st: Ntx, n: nat) {
    n in st.index && st.index[n] in st.accounts && !Retains(st.accounts, st.index[n], n)
  }

  /** Taking a note out of the index after its account let go of it. */
  lemma Forgotten(apply: ApplyDelta, st: Ntx, n: nat, acc: Option<Acc>, txs: map<nat, Impact>,
                  used: set<nat>)
    requires Midway(apply, st, txs, used) && n in st.index
    requires acc.Some? <==> st.index[n] in st.accounts
    requires acc.Some? ==>
      var before := st.accounts[st.index[n]];
      && acc.value == before.(available := acc.value.available, nullified := acc.value.nullified)
      && acc.value.available.Keys <= before.available.Keys - {n}
      && acc.value.nullified.Keys <= before.nullified.Keys - {n}
    ensures var st' := st.(index := st.index - {n});
      Midway(apply, if acc.None? then st'
                    else st'.(accounts := st.accounts[st.index[n] := acc.value]), txs, used)
  {
    var p, index' := st.index[n], st.index - {n};
    forall q | q in st.accounts && q != p ensures Filed(q, st.accounts[q], index', used) {
      assert Filed(q, st.accounts[q], st.index, used);
    }
    if acc.Some? {
      assert Filed(p, st.accounts[p], st.index, used);
      SaneDisjoint(apply, st.accounts[p]);
      SaneNotes(apply, st.accounts[p], acc.value);
      assert Filed(p, acc.value, index', used);
      hide Sane, Filed;
      assert SameStates(st.accounts, st.accounts[p := acc.value]);
      SameStatesBalanced(st.accounts, st.accounts[p := acc.value], txs);
    }
  }

  lemma {:induction false} CommitNullifiersKeep(apply: ApplyDelta, st: Ntx, ns: set<nat>,
                                                txs: map<nat, Impact>, used: set<nat>)
    requires Midway(apply, st, txs, used) && ns <= st.index.Keys
    ensures CommitNullifiers(st, ns).None? <==> exists n :: n in ns && Lapsed(st, n)
    ensures CommitNullifiers(st, ns).Some? ==>
      var st' := CommitNullifiers(st, ns).value;
      && Midway(apply, st', txs, used)
      && st'.index == st.index - ns && st'.txs == st.txs && st'.queue == st.queue
      && st'.accounts.Keys == st.accounts.Keys
      && forall n :: n in st'.index ==> (Lapsed(st', n) <==> Lapsed(st, n))
    decreases ns
  {
    hide Midway;
    if ns == {} {
      assert st.index - {} == st.index;
    } else {
      var n := Min(ns);
      var p, acc := st.index[n], Released(st, n);
      if !Lapsed(st, n) {
        if p in st.accounts {
          NullifiedApart(apply, st, n, txs, used);
        }
        Forgotten(apply, st, n, acc, txs, used);
        var st' := st.(index := st.index - {n});
        var next := if acc.None? then st' else st'.(accounts := st.accounts[p := acc.value]);
        assert CommitNullifiers(st, ns) == CommitNullifiers(next, ns - {n});
        CommitNullifiersKeep(apply, next, ns - {n}, txs, used);
        assert st.index - {n} - (ns - {n}) == st.index - ns;
        assert forall m :: m in ns && m != n ==> m in ns - {n};
        assert forall m :: m in next.index ==> (Lapsed(next, m) <==> Lapsed(st, m));
      }
    }
  }

  function Released(st: Ntx, n: nat): Option<Acc>
    requires n in st.index
  {
    if st.index[n] in st.accounts && n in st.accounts[st.index[n]].nullified
    then Some(st.accounts[st.index[n]].CommitNullifier(n)) else None
  }

  lemma NullifiedApart(apply: ApplyDelta, st: Ntx, n: nat, txs: map<nat, Impact>, used: set<nat>)
    requires Midway(apply, st, txs, used) && n in st.index && st.index[n] in st.accounts
    requires n in st.accounts[st.index[n]].nullified
    ensures n !in st.accounts[st.index[n]].available
  {
    SaneDisjoint(apply, st.accounts[st.index[n]]);
  }

  lemma CountLess(txs: map<nat, Impact>, t: nat, p: nat)
    requires t in txs
    ensures |Changing(txs - {t}, p)| ==
            |Changing(txs, p)| - if txs[t].delta == Some(p) then 1 else 0
    ensures txs[t].delta == Some(p) ==> |Changing(txs, p)| > 0
  {
    var gone := if txs[t].delta == Some(p) then {t} else {};
    assert Changing(txs - {t}, p) == Changing(txs, p) - gone;
    assert gone <= Changing(txs, p);
  }

  lemma CommitDeltaBalanced(st: Ntx, t: nat, p: nat)
    requires Balanced(st.accounts, st.txs) && t in st.txs && st.txs[t].delta == Some(p)
    ensures p in st.accounts && st.accounts[p].inflight != []
    ensures Balanced(st.accounts[p := st.accounts[p].CommitDelta()], st.txs - {t})
  {
    forall q {
      CountLess(st.txs, t, q);
    }
  }

  lemma UnchangedBalanced(st: Ntx, t: nat)
    requires Balanced(st.accounts, st.txs) && t in st.txs && st.txs[t].delta == None
    ensures Balanced(st.accounts, st.txs - {t})
  {
    forall q {
      CountLess(st.txs, t, q);
    }
  }

  lemma CommitDeltaKeeps(apply: ApplyDelta, st: Ntx, t: nat, used: set<nat>)
    requires Midway(apply, st, st.txs, used) && t in st.txs
    ensures var r := CommitDelta(st.(txs := st.txs - {t}), st.txs[t].delta);
      && r.Some? && Midway(apply, r.value, r.value.txs, used)
      && r.value.index == st.index && r.value.txs == st.txs - {t} && r.value.queue == st.queue
      && r.value.accounts.Keys == st.accounts.Keys
      && forall n :: Lapsed(r.value, n) <==> Lapsed(st, n)
  {
    if st.txs[t].delta.None? {
      UnchangedBalanced(st, t);
      hide Sane, Filed, Balanced;
    } else {
      var p := st.txs[t].delta.value;
      CommitDeltaBalanced(st, t, p);
      hide Balanced;
      OrderlyWithout(apply, st.accounts, st.index, used, p);
      SanePop(apply, st.accounts[p]);
      OrderlyWith(apply, st.accounts, st.index, used, p, st.accounts[p].CommitDelta());
      hide Sane, Filed, Orderly;
    }
  }

  /** Committing a tracked transaction panics exactly when one of the notes it consumed is not held
      as consumed by its account any more. Otherwise it is forgotten together with these notes, and
      all that can be asked for in the middle of a block is kept. */
  lemma CommitIsExact(apply: ApplyDelta, st: Ntx, t: nat)
    requires WithinBlock(apply, st) && t in st.txs
    ensures AfterCommit(st, t).None? <==> exists n :: n in st.txs[t].nullifiers && Lapsed(st, n)
    ensures AfterCommit(st, t).Some? ==>
      var st' := AfterCommit(st, t).value;
      && WithinBlock(apply, st')
      && st'.txs == st.txs - {t} && st'.index == st.index - st.txs[t].nullifiers
      && st'.accounts.Keys == st.accounts.Keys
      && forall n :: n in st'.index ==> (Lapsed(st', n) <==> Lapsed(st, n))
  {
    hide Midway, Consumed, CreatedOnce, ConsumedOnce, Lapsed;
    var used, ns := Consumed(st.txs), st.txs[t].nullifiers;
    CommitDeltaKeeps(apply, st, t, used);
    var changed := CommitDelta(st.(txs := st.txs - {t}), st.txs[t].delta).value;
    CommitNullifiersKeep(apply, changed, ns, st.txs - {t}, used);
    FindableLess(st.index.Keys, st.txs, t);
    hide Findable;
    if AfterCommit(st, t).Some? {
      var st' := AfterCommit(st, t).value;
      LessUsed(apply, st', st.txs - {t}, used, Consumed(st.txs - {t})) by {
        ConsumedLess(st.txs, t);
      }
      StillOnce(st.txs, t);
    }
  }

  lemma LessUsed(apply: ApplyDelta, st: Ntx, txs: map<nat, Impact>, used: set<nat>,
                 used': set<nat>)
    requires Midway(apply, st, txs, used) && used' <= used
    ensures Midway(apply, st, txs, used')
  {
    hide Sane, Balanced;
  }

  lemma ConsumedLess(txs: map<nat, Impact>, t: nat)
    requires t in txs
    ensures Consumed(txs - {t}) <= Consumed(txs)
    ensures ConsumedOnce(txs) ==> Consumed(txs - {t}) !! txs[t].nullifiers
  {
  }

  lemma StillOnce(txs: map<nat, Impact>, t: nat)
    requires CreatedOnce(txs) && ConsumedOnce(txs)
    ensures CreatedOnce(txs - {t}) && ConsumedOnce(txs - {t})
  {
  }

  lemma FindableLess(index: set<nat>, txs: map<nat, Impact>, t: nat)
    requires Findable(index, txs) && ConsumedOnce(txs) && t in txs
    ensures Findable(index - txs[t].nullifiers, txs - {t})
  {
  }

  // ---------------------------------------------------------------------------------------------
  // Reverting

  lemma RevertDeltaKeeps(apply: ApplyDelta, st: Ntx, t: nat, used: set<nat>)
    requires Midway(apply, st, st.txs, used) && t in st.txs
    ensures var r := RevertDelta(st.(txs := st.txs - {t}), st.txs[t].delta);
      && r.Some? && Midway(apply, r.value, r.value.txs, used)
      && r.value.index == st.index && r.value.txs == st.txs - {t} && r.value.queue == st.queue
      && r.value.accounts.Keys <= st.accounts.Keys
      && forall n :: Lapsed(r.value, n) ==> Lapsed(st, n)
  {
    RevertDeltaBalanced(st, t);
    if st.txs[t].delta.Some? {
      var p := st.txs[t].delta.value;
      assert p in st.accounts && st.accounts[p].inflight != [];
      hide Balanced;
      OrderlyWithout(apply, st.accounts, st.index, used, p);
      SanePop(apply, st.accounts[p]);
      OrderlyWith(apply, st.accounts, st.index, used, p, st.accounts[p].RevertDelta());
      hide Sane, Filed, Orderly;
    } else {
      hide Sane, Filed, Orderly, Balanced;
    }
  }

  lemma {:induction false} RevertNotesKeep(apply: ApplyDelta, st: Ntx, ns: set<nat>,
                                           txs: map<nat, Impact>, used: set<nat>)
    requires Midway(apply, st, txs, used) && RevertNotes(st, ns).Some?
    ensures var st' := RevertNotes(st, ns).value;
      && Midway(apply, st', txs, used)
      && st'.index == st.index - ns && st'.txs == st.txs && st'.accounts.Keys == st.accounts.Keys
      && forall n :: n !in ns ==> (Lapsed(st', n) <==> Lapsed(st, n))
    decreases ns
  {
    hide Midway;
    if ns == {} {
      assert st.index - {} == st.index;
    } else {
      var n := Min(ns);
      var p, st' := st.index[n], st.(index := st.index - {n});
      var acc := if p in st.accounts then Some(st.accounts[p].RevertNote(n)) else None;
      Forgotten(apply, st, n, acc, txs, used);
      var next := if acc.None? then st' else st'.(accounts := st.accounts[p := acc.value]);
      RevertNotesKeep(apply, next, ns - {n}, txs, used);
      assert st.index - {n} - (ns - {n}) == st.index - ns;
    }
  }

  lemma {:induction false} RevertNullifiersKeep(apply: ApplyDelta, st: Ntx, ns: set<nat>,
                                                txs: map<nat, Impact>, used: set<nat>)
    requires Midway(apply, st, txs, used) && ns !! used && RevertNullifiers(st, ns).Some?
    ensures var st' := RevertNullifiers(st, ns).value;
      && Midway(apply, st', txs, used)
      && st'.index == st.index && st'.txs == st.txs && st'.accounts.Keys == st.accounts.Keys
      && forall n :: n !in ns ==> (Lapsed(st', n) <==> Lapsed(st, n))
    decreases ns
  {
    hide Midway;
    if ns != {} {
      var n := Min(ns);
      var p := st.index[n];
      var next := if p !in st.accounts then st
        else st.(accounts := st.accounts[p := st.accounts[p].RevertNullifier(n)]);
      if p in st.accounts {
        WaitsAgain(apply, st, n, txs, used);
      }
      RevertNullifiersKeep(apply, next, ns - {n}, txs, used);
    }
  }

  lemma WaitsAgain(apply: ApplyDelta, st: Ntx, n: nat, txs: map<nat, Impact>, used: set<nat>)
    requires Midway(apply, st, txs, used) && n in st.index && n !in used
    requires st.index[n] in st.accounts
    ensures var p := st.index[n];
      Midway(apply, st.(accounts := st.accounts[p := st.accounts[p].RevertNullifier(n)]), txs, used)
  {
    var p := st.index[n];
    var acc := st.accounts[p].RevertNullifier(n);
    SaneDisjoint(apply, st.accounts[p]);
    SaneNotes(apply, st.accounts[p], acc);
    assert Filed(p, st.accounts[p], st.index, used);
    assert Filed(p, acc, st.index, used);
    Replaced(apply, st, p, acc, txs, used);
  }

  /** No other tracked transaction consumed a note that this one created. */
  ghost predicate ConsumersReverted(txs: map<nat, Impact>, t: nat)
    requires t in txs
  {
    forall u :: u in txs && u != t ==> txs[t].notes !! txs[u].nullifiers
  }

  /** Reverting a tracked transaction leaves everything in order exactly when the transactions that
      consumed its notes were reverted before. */
  lemma RevertIsExact(apply: ApplyDelta, st: Ntx, t: nat)
    requires Inv(apply, st) && t in st.txs && AfterRevert(st, t).Some?
    ensures var st' := AfterRevert(st, t).value;
      && st'.txs == st.txs - {t}
      && (Inv(apply, st') <==> ConsumersReverted(st.txs, t))
      && st'.accounts.Keys <= st.accounts.Keys
      && forall n :: n !in st.txs[t].nullifiers ==> n in st'.index ==> Lapsed(st', n) ==>
                     Lapsed(st, n)
  {
    hide Midway, Consumed, CreatedOnce, ConsumedOnce, Lapsed, ConsumersReverted;
    var txs', used := st.txs - {t}, Consumed(st.txs - {t});
    ConsumedLess(st.txs, t);
    LessUsed(apply, st, st.txs, Consumed(st.txs), used);
    RevertDeltaKeeps(apply, st, t, used);
    var changed := RevertDelta(st.(txs := txs'), st.txs[t].delta).value;
    RevertNotesIs(changed, st.txs[t].notes);
    RevertNotesKeep(apply, changed, st.txs[t].notes, txs', used);
    var noted := RevertNotes(changed, st.txs[t].notes).value;
    RevertNullifiersKeep(apply, noted, st.txs[t].nullifiers, txs', used);
    StillOnce(st.txs, t);
    IndexedWithout(st.index.Keys, st.txs, t);
    StillLapsed(changed, noted, st.txs[t].notes);
    hide Indexed;
  }

  lemma StillLapsed(st: Ntx, st': Ntx, ns: set<nat>)
    requires st'.index == st.index - ns
    requires forall n :: n !in ns ==> (Lapsed(st', n) <==> Lapsed(st, n))
    ensures forall n :: Lapsed(st', n) ==> Lapsed(st, n)
  {
  }

  lemma IndexedWithout(index: set<nat>, txs: map<nat, Impact>, t: nat)
    requires Indexed(index, txs) && CreatedOnce(txs) && t in txs
    ensures Indexed(index - txs[t].notes, txs - {t}) <==> ConsumersReverted(txs, t)
  {
    var left := txs - {t};
    forall u | u in txs && u != t
      ensures u in left && left[u] == txs[u]
      ensures txs[u].notes + txs[u].nullifiers <= index - txs[t].notes <==>
              txs[t].notes !! txs[u].nullifiers
    {
    }
  }

  // ---------------------------------------------------------------------------------------------
  // Selecting

  lemma {:induction false} SearchKeeps(apply: ApplyDelta, st: Ntx, n: nat,
                                       txs: map<nat, Impact>, used: set<nat>)
    requires Midway(apply, st, txs, used) && n <= |st.queue|
    requires Search(st.accounts, st.busy, st.queue, n).Some?
    ensures var found := Search(st.accounts, st.busy, st.queue, n).value;
      && Midway(apply, st.(accounts := found.accounts, queue := found.queue), txs, used)
      && found.accounts.Keys <= st.accounts.Keys
      && forall p :: p in found.accounts ==> found.accounts[p] == st.accounts[p]
    decreases n
  {
    hide Midway;
    if n > 0 {
      var c, rotated := st.queue[0], st.queue[1..] + [st.queue[0]];
      Rotated(apply, st, txs, used);
      if c in st.busy {
        SearchKeeps(apply, st.(queue := rotated), n - 1, txs, used);
      } else if st.accounts[c].IsEmpty() {
        PruneKeeps(apply, st, txs, used);
        var pruned := st.(accounts := st.accounts - {c}, queue := st.queue[1..]);
        SearchKeeps(apply, pruned, n - 1, txs, used);
      } else if st.accounts[c].available == map[] {
        SearchKeeps(apply, st.(queue := rotated), n - 1, txs, used);
      }
    }
  }

  lemma Rotated(apply: ApplyDelta, st: Ntx, txs: map<nat, Impact>, used: set<nat>)
    requires Midway(apply, st, txs, used) && st.queue != []
    ensures Midway(apply, st.(queue := st.queue[1..] + [st.queue[0]]), txs, used)
  {
    var c, rest := st.queue[0], st.queue[1..];
    assert st.queue == [c] + rest;
    assert Elems(rest + [c]) == Elems([c] + rest);
    hide Sane, Filed, Balanced;
  }

  /** An account without states in flight has no tracked transaction, so that it can go. */
  lemma PruneKeeps(apply: ApplyDelta, st: Ntx, txs: map<nat, Impact>, used: set<nat>)
    requires Midway(apply, st, txs, used) && st.queue != []
    requires st.queue[0] in st.accounts && st.accounts[st.queue[0]].IsEmpty()
    ensures Midway(apply, st.(accounts := st.accounts - {st.queue[0]}, queue := st.queue[1..]),
                   txs, used)
  {
    var c, rest := st.queue[0], st.queue[1..];
    OrderlyWithout(apply, st.accounts, st.index, used, c);
    hide Sane, Filed, Orderly;
    assert st.queue == [c] + rest;
    assert Elems([c] + rest) == Elems(rest) + {c};
    UnusedBalanced(st.accounts, txs, c);
    hide Balanced;
  }

  lemma UnusedBalanced(accounts: map<nat, Acc>, txs: map<nat, Impact>, p: nat)
    requires Balanced(accounts, txs) && p in accounts && accounts[p].inflight == []
    ensures Balanced(accounts - {p}, txs)
  {
    assert Changing(txs, p) == {};
    assert forall t :: t in txs && txs[t].delta == Some(p) ==> t in Changing(txs, p);
  }
}
