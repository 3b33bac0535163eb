/** The network transaction builder's view of one account: a committed state, states that are in
    flight, notes waiting to be consumed and notes consumed by transactions in flight. */
module NtxAccounts {
  import opened Prelude

  /** A network note, known by its nullifier. */
  datatype Note = Note(nullifier: nat, account: nat, details: nat)

  function Nullifiers(notes: seq<Note>): set<nat> {
    set note | note in notes :: note.nullifier
  }

  /** Applying a delta to an account state; `None` when it does not apply. */
  type ApplyDelta = (nat, nat) -> Option<nat>

  datatype Acc = Acc(committed: Option<nat>, inflight: seq<nat>,
                     available: map<nat, Note>, nullified: map<nat, Note>) {

    predicate Known() {
      committed.Some? || inflight != []
    }

    function Latest(): nat
      requires Known()
    {
      if inflight != [] then inflight[|inflight| - 1] else committed.value
    }

    predicate IsEmpty() {
      inflight == [] && available == map[] && nullified == map[]
    }

    predicate CanAddDelta(apply: ApplyDelta, delta: nat) {
      Known() && apply(Latest(), delta).Some?
    }

    function AddDelta(apply: ApplyDelta, delta: nat): Acc
      requires CanAddDelta(apply, delta)
    {
      this.(inflight := inflight + [apply(Latest(), delta).value])
    }

    function CommitDelta(): Acc
      requires inflight != []
    {
      this.(committed := Some(inflight[0]), inflight := inflight[1..])
    }

    function RevertDelta(): Acc
      requires inflight != []
    {
      this.(inflight := inflight[..|inflight| - 1])
    }

    function AddNote(note: Note): Acc {
      this.(available := available[note.nullifier := note])
    }

    function RevertNote(n: nat): Acc {
      this.(available := available - {n}, nullified := nullified - {n})
    }

    function AddNullifier(n: nat): Acc
      requires n in available
    {
      this.(available := available - {n}, nullified := nullified[n := available[n]])
    }

    function CommitNullifier(n: nat): Acc
      requires n in nullified
    {
      this.(nullified := nullified - {n})
    }

    function RevertNullifier(n: nat): Acc {
      if n in nullified then
        this.(nullified := nullified - {n}, available := available[n := nullified[n]])
      else this
    }
  }

  /** What put a state in flight; only an account that does not exist yet can be created. */
  datatype Update = Created(account: nat) | Changed(delta: nat)

  /** The states that a list of updates leads through, starting from the committed one. */
  function Running(apply: ApplyDelta, committed: Option<nat>, updates: seq<Update>)
      : Option<seq<nat>>
  {
    if updates == [] then Some([]) else
      var before := Running(apply, committed, updates[..|updates| - 1]);
      if before.None? then None else
        var next := After(apply, Acc(committed, before.value, map[], map[]),
                          updates[|updates| - 1]);
        if next.None? then None else Some(before.value + [next.value])
  }

  function After(apply: ApplyDelta, acc: Acc, u: Update): Option<nat> {
    match u
    case Created(account) => if acc.Known() then None else Some(account)
    case Changed(delta) => if acc.Known() then apply(acc.Latest(), delta) else None
  }

  lemma {:induction false} RunningPush(apply: ApplyDelta, committed: Option<nat>,
                                       updates: seq<Update>, u: Update)
    requires Running(apply, committed, updates).Some?
    ensures var states := Running(apply, committed, updates).value;
      Running(apply, committed, updates + [u]) ==
      var next := After(apply, Acc(committed, states, map[], map[]), u);
      if next.None? then None else Some(states + [next.value])
  {
    assert (updates + [u])[..|updates|] == updates;
  }

  lemma {:induction false} RunningLength(apply: ApplyDelta, committed: Option<nat>,
                                         updates: seq<Update>)
    requires Running(apply, committed, updates).Some?
    ensures |Running(apply, committed, updates).value| == |updates|
    decreases |updates|
  {
    if updates != [] {
      RunningLength(apply, committed, updates[..|updates| - 1]);
    }
  }

  /** Committing the oldest state leaves the others as they are. */
  lemma {:induction false} RunningPop(apply: ApplyDelta, committed: Option<nat>,
                                      updates: seq<Update>)
    requires Running(apply, committed, updates).Some? && updates != []
    ensures var states := Running(apply, committed, updates).value;
      states != [] && Running(apply, Some(states[0]), updates[1..]) == Some(states[1..])
    decreases |updates|
  {
    var f, u := updates[..|updates| - 1], updates[|updates| - 1];
    RunningLength(apply, committed, f);
    if f != [] {
      RunningPop(apply, committed, f);
      var states := Running(apply, committed, f).value;
      RunningPush(apply, Some(states[0]), f[1..], u);
      assert updates[1..] == f[1..] + [u];
      var all := Running(apply, committed, updates).value;
      assert all[1..] == states[1..] + [all[|all| - 1]];
    }
  }

  /** The states in flight are the surviving updates applied to the committed account, and no note
      is both waiting and consumed. */
  predicate Sound(apply: ApplyDelta, acc: Acc, updates: seq<Update>) {
    && Running(apply, acc.committed, updates) == Some(acc.inflight)
    && acc.available.Keys !! acc.nullified.Keys
  }

  class AccountState {
    var committed: Option<nat>
    var inflight: seq<nat>
    var availableNotes: map<nat, Note>
    var nullifiedNotes: map<nat, Note>
    const apply: ApplyDelta

    /** The surviving updates behind `inflight`, oldest first. */
    ghost var updates: seq<Update>

    function Model(): Acc
      reads this
    {
      Acc(committed, inflight, availableNotes, nullifiedNotes)
    }

    ghost predicate Valid()
      reads this
    {
      Sound(apply, Model(), updates)
    }

    constructor FromCommittedAccount(apply: ApplyDelta, account: nat)
      ensures Valid() && updates == [] && this.apply == apply
      ensures Model() == Acc(Some(account), [], map[], map[])
    {
      this.apply := apply;
      committed, inflight, availableNotes, nullifiedNotes := Some(account), [], map[], map[];
      updates := [];
    }

    constructor FromUncommittedAccount(apply: ApplyDelta, account: nat)
      ensures Valid() && updates == [Created(account)] && this.apply == apply
      ensures Model() == Acc(None, [account], map[], map[])
    {
      this.apply := apply;
      committed, inflight, availableNotes, nullifiedNotes := None, [account], map[], map[];
      updates := [Created(account)];
      new;
      assert updates[..0] == [] && updates[0] == Created(account);
      assert Running(apply, None, updates[..0]) == Some([]);
      assert [] + [account] == inflight;
    }

    method LatestAccount() returns (account: nat)
      requires Model().Known()
      ensures account == Model().Latest()
    {
      if inflight != [] {
        account := inflight[|inflight| - 1];
      } else {
        account := committed.value;
      }
    }

    method AddDelta(delta: nat)
      requires Valid() && Model().CanAddDelta(apply, delta)
      modifies this
      ensures Valid() && updates == old(updates) + [Changed(delta)]
      ensures Model() == old(Model()).AddDelta(apply, delta)
    {
      var latest := LatestAccount();
      RunningPush(apply, committed, updates, Changed(delta));
      inflight := inflight + [apply(latest, delta).value];
      updates := updates + [Changed(delta)];
    }

    method CommitDelta()
      requires Valid() && inflight != []
      modifies this
      ensures Valid() && old(updates) == old(updates[..1]) + updates
      ensures Model() == old(Model()).CommitDelta()
    {
      RunningLength(apply, committed, updates);
      RunningPop(apply, committed, updates);
      committed, inflight := Some(inflight[0]), inflight[1..];
      updates := updates[1..];
    }

    /** Returns whether it was the creation of the account that was reverted. */
    method RevertDelta() returns (gone: bool)
      requires Valid() && inflight != []
      modifies this
      ensures Valid() && old(updates) == updates + old(updates[|updates| - 1..])
      ensures Model() == old(Model()).RevertDelta()
      ensures gone <==> !Model().Known()
    {
      RunningLength(apply, committed, updates);
      inflight := inflight[..|inflight| - 1];
      updates := updates[..|updates| - 1];
      gone := committed.None? && inflight == [];
    }

    method AddNote(note: Note)
      requires Valid() && note.nullifier !in nullifiedNotes
      modifies this
      ensures Valid() && updates == old(updates)
      ensures Model() == old(Model()).AddNote(note)
    {
      availableNotes := availableNotes[note.nullifier := note];
    }

    method RevertNote(n: nat)
      requires Valid()
      modifies this
      ensures Valid() && updates == old(updates)
      ensures Model() == old(Model()).RevertNote(n)
    {
      availableNotes := availableNotes - {n};
      nullifiedNotes := nullifiedNotes - {n};
    }

    method AddNullifier(n: nat)
      requires Valid() && n in availableNotes
      modifies this
      ensures Valid() && updates == old(updates)
      ensures Model() == old(Model()).AddNullifier(n)
    {
      var note := availableNotes[n];
      availableNotes := availableNotes - {n};
      nullifiedNotes := nullifiedNotes[n := note];
    }

    method CommitNullifier(n: nat)
      requires Valid() && n in nullifiedNotes
      modifies this
      ensures Valid() && updates == old(updates)
      ensures Model() == old(Model()).CommitNullifier(n)
    {
      nullifiedNotes := nullifiedNotes - {n};
    }

    method RevertNullifier(n: nat)
      requires Valid()
      modifies this
      ensures Valid() && updates == old(updates)
      ensures Model() == old(Model()).RevertNullifier(n)
    {
      if n in nullifiedNotes {
        var note := nullifiedNotes[n];
        nullifiedNotes := nullifiedNotes - {n};
        availableNotes := availableNotes[n := note];
      }
    }
  }
}
