/** The network transaction builder: accounts in a rotating queue, and the effects of transactions
    in flight. `None` is an `expect` or `unwrap` that fires. */
module NtxStates {
  import opened Prelude
  import opened NtxAccounts

  /** What a tracked transaction did: the account it changed, the notes it created and the notes
      it consumed, by nullifier. */
  datatype Impact = Impact(delta: Option<nat>, notes: set<nat>, nullifiers: set<nat>)

  datatype AccountUpdate = New(prefix: nat, account: nat) | Delta(prefix: nat, delta: nat)

  datatype Ntx = Ntx(accounts: map<nat, Acc>, queue: seq<nat>, busy: set<nat>,
                     txs: map<nat, Impact>, index: map<nat, nat>)

  // ---------------------------------------------------------------------------------------------
  // Selection

  datatype Found = Found(accounts: map<nat, Acc>, queue: seq<nat>, chosen: Option<nat>)

  /** `n` more turns of the queue. */
  function Search(accounts: map<nat, Acc>, busy: set<nat>, queue: seq<nat>, n: nat)
      : Option<Found>
    requires n <= |queue|
    decreases n
  {
    if n == 0 then Some(Found(accounts, queue, None)) else
      var candidate := queue[0];
      var rotated := queue[1..] + [candidate];
      if candidate in busy then Search(accounts, busy, rotated, n - 1)
      else if candidate !in accounts then None
      else if accounts[candidate].IsEmpty() then
        Search(accounts - {candidate}, busy, queue[1..], n - 1)
      else if accounts[candidate].available == map[] then Search(accounts, busy, rotated, n - 1)
      else Some(Found(accounts, rotated, Some(candidate)))
  }

  /** The first notes in the order of their nullifiers. */
  function FirstNotes(notes: map<nat, Note>, limit: nat): seq<Note>
    decreases limit
  {
    if limit == 0 || notes.Keys == {} then [] else
      var n := Min(notes.Keys);
      [notes[n]] + FirstNotes(notes - {n}, limit - 1)
  }

  // ---------------------------------------------------------------------------------------------
  // Effects of transactions

  /** The account, loaded from the store if it is not tracked. */
  function Fetch(store: nat -> Option<nat>, st: Ntx, prefix: nat): Ntx {
    if prefix in st.accounts || store(prefix).None? then st
    else st.(accounts := st.accounts[prefix := Acc(Some(store(prefix).value), [], map[], map[])],
             queue := st.queue + [prefix])
  }

  /** What becomes of adding a transaction. */
  datatype Added = Done(state: Ntx) | Unknown | Panic

  function AddUpdate(apply: ApplyDelta, store: nat -> Option<nat>, st: Ntx,
                     update: Option<AccountUpdate>): Added
  {
    if update.None? then Done(st) else
    match update.value
    case New(prefix, account) =>
      Done(st.(accounts := st.accounts[prefix := Acc(None, [account], map[], map[])],
               queue := st.queue + [prefix], busy := st.busy - {prefix}))
    case Delta(prefix, delta) =>
      var fetched := Fetch(store, st, prefix);
      if prefix !in fetched.accounts then Unknown
      else if !fetched.accounts[prefix].CanAddDelta(apply, delta) then Panic
      else
        Done(fetched.(
          accounts := fetched.accounts[prefix := fetched.accounts[prefix].AddDelta(apply, delta)],
          busy := st.busy - {prefix}))
  }

  function AddNote(store: nat -> Option<nat>, st: Ntx, note: Note): Ntx {
    var fetched := Fetch(store, st.(index := st.index[note.nullifier := note.account]),
                         note.account);
    if note.account !in fetched.accounts then fetched
    else fetched.(accounts := fetched.accounts[note.account :=
                                fetched.accounts[note.account].AddNote(note)])
  }

  function AddNotes(store: nat -> Option<nat>, st: Ntx, notes: seq<Note>): Ntx {
    if notes == [] then st
    else AddNote(store, AddNotes(store, st, notes[..|notes| - 1]), notes[|notes| - 1])
  }

  /** Nullifiers of other than network notes are ignored. */
  function AddNullifier(st: Ntx, n: nat): Option<Ntx> {
    if n !in st.index then Some(st)
    else if st.index[n] !in st.accounts || n !in st.accounts[st.index[n]].available then None
    else
      var prefix := st.index[n];
      Some(st.(accounts := st.accounts[prefix := st.accounts[prefix].AddNullifier(n)]))
  }

  function AddNullifiers(st: Ntx, ns: seq<nat>): Option<Ntx> {
    if ns == [] then Some(st) else
      var before := AddNullifiers(st, ns[..|ns| - 1]);
      if before.None? then None else AddNullifier(before.value, ns[|ns| - 1])
  }

  function AfterAdd(apply: ApplyDelta, store: nat -> Option<nat>, st: Ntx, id: nat,
                    update: Option<AccountUpdate>, notes: seq<Note>, ns: seq<nat>): Added
  {
    if id in st.txs then Done(st) else
      var updated := AddUpdate(apply, store, st, update);
      if !updated.Done? then updated else
        var noted := AddNotes(store, updated.state, notes);
        var nullified := AddNullifiers(noted, ns);
        if nullified.None? then Panic else
          var impact := Impact(if update.None? then None else Some(update.value.prefix),
                               Nullifiers(notes), Elems(ns) * noted.index.Keys);
          if impact == Impact(None, {}, {}) then Done(nullified.value)
          else Done(nullified.value.(txs := st.txs[id := impact]))
  }

  function CommitDelta(st: Ntx, delta: Option<nat>): Option<Ntx> {
    if delta.None? then Some(st)
    else if delta.value !in st.accounts || st.accounts[delta.value].inflight == [] then None
    else Some(st.(accounts := st.accounts[delta.value := st.accounts[delta.value].CommitDelta()]))
  }

  function CommitNullifiers(st: Ntx, ns: set<nat>): Option<Ntx>
    decreases ns
  {
    if ns == {} then Some(st) else
      var n := Min(ns);
      if n !in st.index then None else
        var prefix := st.index[n];
        var st' := st.(index := st.index - {n});
        if prefix !in st.accounts then CommitNullifiers(st', ns - {n})
        else if n !in st.accounts[prefix].nullified then None
        else CommitNullifiers(
          st'.(accounts := st.accounts[prefix := st.accounts[prefix].CommitNullifier(n)]),
          ns - {n})
  }

  function AfterCommit(st: Ntx, id: nat): Option<Ntx> {
    if id !in st.txs then Some(st) else
      var impact := st.txs[id];
      var committed := CommitDelta(st.(txs := st.txs - {id}), impact.delta);
      if committed.None? then None else CommitNullifiers(committed.value, impact.nullifiers)
  }

  /** An account whose creation is reverted is forgotten; its place in the queue is not. */
  function RevertDelta(st: Ntx, delta: Option<nat>): Option<Ntx> {
    if delta.None? then Some(st)
    else if delta.value !in st.accounts || st.accounts[delta.value].inflight == [] then None
    else
      var reverted := st.accounts[delta.value].RevertDelta();
      Some(st.(accounts := if reverted.Known() then st.accounts[delta.value := reverted]
                           else st.accounts - {delta.value}))
  }

  function RevertNotes(st: Ntx, ns: set<nat>): Option<Ntx>
    decreases ns
  {
    if ns == {} then Some(st) else
      var n := Min(ns);
      if n !in st.index then None else
        var prefix := st.index[n];
        var st' := st.(index := st.index - {n});
        RevertNotes(if prefix !in st.accounts then st'
                    else st'.(accounts := st.accounts[prefix := st.accounts[prefix].RevertNote(n)]),
                    ns - {n})
  }

  function RevertNullifiers(st: Ntx, ns: set<nat>): Option<Ntx>
    decreases ns
  {
    if ns == {} then Some(st) else
      var n := Min(ns);
      if n !in st.index then None else
        var prefix := st.index[n];
        RevertNullifiers(if prefix !in st.accounts then st
                         else st.(accounts := st.accounts[prefix :=
                                               st.accounts[prefix].RevertNullifier(n)]),
                         ns - {n})
  }

  function AfterRevert(st: Ntx, id: nat): Option<Ntx> {
    if id !in st.txs then Some(st) else
      var impact := st.txs[id];
      var changed := RevertDelta(st.(txs := st.txs - {id}), impact.delta);
      if changed.None? then None else
        var noted := RevertNotes(changed.value, impact.notes);
        if noted.None? then None else RevertNullifiers(noted.value, impact.nullifiers)
  }

  lemma {:induction false} PrefixAdds(st: Ntx, ns: seq<nat>, i: nat)
    requires AddNullifiers(st, ns).Some? && i <= |ns|
    ensures AddNullifiers(st, ns[..i]).Some?
    decreases |ns|
  {
    if i < |ns| {
      PrefixAdds(st, ns[..|ns| - 1], i);
      assert ns[..|ns| - 1][..i] == ns[..i];
    } else {
      assert ns[..i] == ns;
    }
  }

  lemma {:induction false} TxsKept(store: nat -> Option<nat>, st: Ntx, notes: seq<Note>)
    ensures AddNotes(store, st, notes).txs == st.txs
    decreases |notes|
  {
    if notes != [] {
      TxsKept(store, st, notes[..|notes| - 1]);
    }
  }

  // ---------------------------------------------------------------------------------------------
  // The builder's state, updated in place

  class State {
    var accounts: map<nat, Acc>
    var queue: seq<nat>
    var inProgress: set<nat>
    var inflightTxs: map<nat, Impact>
    var nullifierIdx: map<nat, nat>
    const apply: ApplyDelta

    function Model(): Ntx
      reads this
    {
      Ntx(accounts, queue, inProgress, inflightTxs, nullifierIdx)
    }

    constructor (apply: ApplyDelta)
      ensures Model() == Ntx(map[], [], {}, map[], map[]) && this.apply == apply
    {
      this.apply := apply;
      accounts, queue, inProgress, inflightTxs, nullifierIdx := map[], [], {}, map[], map[];
    }

    /** Selects the next account and the first notes it can consume. */
    method SelectCandidate(limit: nat) returns (candidate: Option<(nat, nat, seq<Note>)>)
      requires limit > 0 && Search(accounts, inProgress, queue, |queue|).Some?
      requires forall p :: p in accounts ==> accounts[p].Known()
      modifies this
      ensures var found := old(Search(accounts, inProgress, queue, |queue|).value);
        && accounts == found.accounts && queue == found.queue
        && if found.chosen.None? then candidate == None && inProgress == old(inProgress)
           else
             var p := found.chosen.value;
             && inProgress == old(inProgress) + {p} && p in accounts && accounts[p].Known()
             && candidate == Some((p, accounts[p].Latest(),
                                   FirstNotes(accounts[p].available, limit)))
      ensures inflightTxs == old(inflightTxs) && nullifierIdx == old(nullifierIdx)
    {
      var n := |queue|;
      for i := 0 to n
        invariant n - i <= |queue| && inProgress == old(inProgress)
        invariant Search(accounts, inProgress, queue, n - i) ==
                  old(Search(accounts, inProgress, queue, |queue|))
        invariant forall p :: p in accounts ==> accounts[p].Known()
        invariant inflightTxs == old(inflightTxs) && nullifierIdx == old(nullifierIdx)
      {
        var p := queue[0];
        queue := queue[1..] + [p];
        if p in inProgress {
          continue;
        }
        if accounts[p].IsEmpty() {
          accounts := accounts - {p};
          queue := queue[..|queue| - 1];
          continue;
        }
        if accounts[p].available == map[] {
          continue;
        }
        inProgress := inProgress + {p};
        return Some((p, accounts[p].Latest(), FirstNotes(accounts[p].available, limit)));
      }
      candidate := None;
    }

    method CandidateFailed(p: nat)
      modifies `inProgress
      ensures inProgress == old(inProgress) - {p}
    {
      inProgress := inProgress - {p};
    }

    /** Returns the account unless it is neither tracked nor known to the store. */
    method FetchAccount(store: nat -> Option<nat>, prefix: nat)
      modifies `accounts, `queue
      ensures Model() == Fetch(store, old(Model()), prefix)
    {
      if prefix !in accounts && store(prefix).Some? {
        queue := queue + [prefix];
        accounts := accounts[prefix := Acc(Some(store(prefix).value), [], map[], map[])];
      }
    }

    /** `false` when the account that changed is unknown, which is reported to the caller. */
    method AddTransaction(store: nat -> Option<nat>, id: nat, update: Option<AccountUpdate>,
                          notes: seq<Note>, ns: seq<nat>) returns (ok: bool)
      requires !AfterAdd(apply, store, Model(), id, update, notes, ns).Panic?
      modifies this
      ensures var added := old(AfterAdd(apply, store, Model(), id, update, notes, ns));
        && (ok <==> added.Done?)
        && Model() == if ok then added.state else old(Model())
    {
      hide AddNotes, AddNullifiers;
      if id in inflightTxs {
        return true;
      }
      ok := UpdateAccount(store, update);
      if !ok {
        return;
      }
      ghost var updated := Model();
      var created := CreateNotes(store, notes);
      TxsKept(store, updated, notes);
      var consumed := ConsumeNotes(ns);
      var delta := if update.None? then None else Some(update.value.prefix);
      if delta.Some? || created != {} || consumed != {} {
        inflightTxs := inflightTxs[id := Impact(delta, created, consumed)];
      }
    }

    method UpdateAccount(store: nat -> Option<nat>, update: Option<AccountUpdate>)
        returns (ok: bool)
      requires !AddUpdate(apply, store, Model(), update).Panic?
      modifies `accounts, `queue, `inProgress
      ensures var updated := AddUpdate(apply, store, old(Model()), update);
        && (ok <==> updated.Done?)
        && Model() == if ok then updated.state else old(Model())
    {
      if update.None? {
        return true;
      }
      var prefix := update.value.prefix;
      match update.value {
        case New(_, account) =>
          accounts := accounts[prefix := Acc(None, [account], map[], map[])];
          queue := queue + [prefix];
        case Delta(_, d) =>
          FetchAccount(store, prefix);
          if prefix !in accounts {
            return false;
          }
          accounts := accounts[prefix := accounts[prefix].AddDelta(apply, d)];
      }
      // Whatever was in progress for the account, this is its result.
      inProgress := inProgress - {prefix};
      ok := true;
    }

    method CreateNotes(store: nat -> Option<nat>, notes: seq<Note>) returns (created: set<nat>)
      modifies `accounts, `queue, `nullifierIdx
      ensures Model() == AddNotes(store, old(Model()), notes) && created == Nullifiers(notes)
    {
      created := {};
      for i := 0 to |notes|
        invariant Model() == AddNotes(store, old(Model()), notes[..i])
        invariant created == Nullifiers(notes[..i])
      {
        var note := notes[i];
        assert notes[..i + 1][..i] == notes[..i] && notes[..i + 1][i] == note;
        assert forall x :: x in notes[..i + 1] <==> x in notes[..i] || x == note;
        created := created + {note.nullifier};
        nullifierIdx := nullifierIdx[note.nullifier := note.account];
        FetchAccount(store, note.account);
        if note.account in accounts {
          accounts := accounts[note.account := accounts[note.account].AddNote(note)];
        }
      }
      assert notes[..|notes|] == notes;
    }

    method ConsumeNotes(ns: seq<nat>) returns (consumed: set<nat>)
      requires AddNullifiers(Model(), ns).Some?
      modifies `accounts
      ensures AddNullifiers(old(Model()), ns) == Some(Model())
      ensures consumed == Elems(ns) * nullifierIdx.Keys
    {
      consumed := {};
      for i := 0 to |ns|
        invariant AddNullifiers(old(Model()), ns[..i]) == Some(Model())
        invariant consumed == Elems(ns[..i]) * nullifierIdx.Keys
      {
        var n := ns[i];
        PrefixAdds(old(Model()), ns, i + 1);
        assert ns[..i + 1][..i] == ns[..i] && ns[..i + 1][i] == n;
        assert Elems(ns[..i + 1]) == Elems(ns[..i]) + {n};
        if n in nullifierIdx {
          consumed := consumed + {n};
          var p := nullifierIdx[n];
          accounts := accounts[p := accounts[p].AddNullifier(n)];
        }
      }
      assert ns[..|ns|] == ns;
    }

    method CommitTransaction(id: nat)
      requires AfterCommit(Model(), id).Some?
      modifies this
      ensures Model() == old(AfterCommit(Model(), id).value)
    {
      if id !in inflightTxs {
        return;
      }
      var impact := inflightTxs[id];
      inflightTxs := inflightTxs - {id};
      if impact.delta.Some? {
        var p := impact.delta.value;
        accounts := accounts[p := accounts[p].CommitDelta()];
      }
      var todo := impact.nullifiers;
      while todo != {}
        invariant CommitNullifiers(Model(), todo).Some?
        invariant CommitNullifiers(Model(), todo) ==
                  old(AfterCommit(Model(), id))
        decreases todo
      {
        var n := Min(todo);
        var p := nullifierIdx[n];
        nullifierIdx := nullifierIdx - {n};
        if p in accounts {
          accounts := accounts[p := accounts[p].CommitNullifier(n)];
        }
        todo := todo - {n};
      }
    }

    method RevertTransaction(id: nat)
      requires AfterRevert(Model(), id).Some?
      modifies this
      ensures Model() == old(AfterRevert(Model(), id).value)
    {
      if id !in inflightTxs {
        return;
      }
      var impact := inflightTxs[id];
      inflightTxs := inflightTxs - {id};
      if impact.delta.Some? {
        var p := impact.delta.value;
        var reverted := accounts[p].RevertDelta();
        if reverted.Known() {
          accounts := accounts[p := reverted];
        } else {
          accounts := accounts - {p};
        }
      }
      ghost var noted := RevertNotes(Model(), impact.notes).value;
      var notes := impact.notes;
      while notes != {}
        invariant RevertNotes(Model(), notes) == Some(noted)
        decreases notes
      {
        var n := Min(notes);
        var p := nullifierIdx[n];
        nullifierIdx := nullifierIdx - {n};
        if p in accounts {
          accounts := accounts[p := accounts[p].RevertNote(n)];
        }
        notes := notes - {n};
      }
      var todo := impact.nullifiers;
      while todo != {}
        invariant RevertNullifiers(Model(), todo).Some?
        invariant RevertNullifiers(Model(), todo) ==
                  old(AfterRevert(Model(), id))
        decreases todo
      {
        var n := Min(todo);
        var p := nullifierIdx[n];
        if p in accounts {
          accounts := accounts[p := accounts[p].RevertNullifier(n)];
        }
        todo := todo - {n};
      }
    }
  }
}
