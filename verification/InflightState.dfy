/** The in-flight state as the node stores it: per-account state stacks with a commit pivot, the
    nullifiers and output notes of all tracked transactions, and per-transaction deltas, all
    updated in place and one transaction at a time. */
module InflightStates {
  import opened Prelude
  import opened Dags
  import opened Transactions
  import opened InflightCores

  /** Oldest state first; the first `committed` of them belong to committed blocks. */
  datatype AccountStates = AccountStates(states: seq<(nat, nat)>, committed: nat) {
    function Uncommitted(): int {
      |states| - committed
    }
  }

  datatype NoteState = Committed | Inflight(tx: nat)

  datatype Delta = Delta(account: nat, nullifiers: set<nat>, notes: set<nat>)

  function DeltaOf(t: Tx): Delta {
    Delta(t.account, Elems(t.nullifiers), Elems(t.outputs))
  }

  function States(txs: seq<Tx>): seq<(nat, nat)> {
    seq(|txs|, i requires 0 <= i < |txs| => (txs[i].final, txs[i].id))
  }

  // ---------------------------------------------------------------------------------------------
  // How the maps relate to the lists. `cut` newest states are missing from each account's stack
  // and `skip` oldest ones, and `extra` more are committed; in between operations all are zero.

  /** How many of an account's transactions in `txs` have been dealt with. */
  function Dealt(txs: seq<Tx>, account: nat, done: set<nat>): nat {
    |Only(On(txs, account), done)|
  }

  ghost predicate AccountAgrees(accounts: map<nat, AccountStates>, core: Core, a: nat,
                                skip: nat, extra: nat, cut: nat)
  {
    var own := On(core.All(), a);
    var past := |On(core.Past(), a)|;
    && (a in accounts <==> skip + cut < |own|)
    && (a in accounts ==>
          && accounts[a].states == States(own)[skip..|own| - cut]
          && accounts[a].committed == past + extra - skip)
  }

  ghost predicate AccountsAgree(accounts: map<nat, AccountStates>, core: Core) {
    forall a: nat :: AccountAgrees(accounts, core, a, 0, 0, 0)
  }

  ghost predicate NotesAgree(notes: map<nat, NoteState>, past: seq<Tx>, log: seq<Tx>) {
    var agree :=
      && notes.Keys == Outputs(past + log)
      && (forall t, n :: t in past && n in t.outputs ==> notes[n] == Committed)
      && (forall t, n :: t in log && n in t.outputs ==> notes[n] == Inflight(t.id));
    agree
  }

  ghost predicate DeltasAgree(deltas: map<nat, Delta>, txs: seq<Tx>) {
    var agree :=
      && deltas.Keys == Ids(txs)
      && forall t :: t in txs ==> deltas[t.id] == DeltaOf(t);
    agree
  }

  /** The maps are what `core` makes them. */
  ghost predicate Describes(core: Core, accounts: map<nat, AccountStates>, nullifiers: set<nat>,
                            notes: map<nat, NoteState>, deltas: map<nat, Delta>)
  {
    var describes :=
      && AccountsAgree(accounts, core)
      && nullifiers == Nullifiers(core.All())
      && NotesAgree(notes, core.Past(), core.log)
      && DeltasAgree(deltas, core.log);
    describes
  }

  // ---------------------------------------------------------------------------------------------
  // Counting an account's transactions as they are dealt with one by one.

  lemma {:induction false} OnDistinct(txs: seq<Tx>, account: nat)
    requires Distinct(txs)
    ensures Distinct(On(txs, account))
    decreases |txs|
  {
    if txs != [] {
      Front(txs);
      var f, t := txs[..|txs| - 1], txs[|txs| - 1];
      OnDistinct(f, account);
      assert t !in On(f, account);
      assert forall x :: x in On(txs, account) ==> x in txs;
    }
  }

  lemma {:induction false} OnlyStep(s: seq<Tx>, done: set<nat>, t: Tx)
    requires Distinct(s) && t.id !in done
    requires t in s || t.id !in Ids(s)
    ensures |Only(s, done + {t.id})| == |Only(s, done)| + if t in s then 1 else 0
    ensures t in s ==> |Only(s, done)| < |s|
    decreases |s|
  {
    if s != [] {
      Front(s);
      var f, last := s[..|s| - 1], s[|s| - 1];
      if t == last {
        assert t !in f;
      } else if t in s {
        assert Independent(t, last);
      }
      OnlyStep(f, done, t);
    }
  }

  lemma {:induction false} DealtStep(txs: seq<Tx>, done: set<nat>, t: Tx, a: nat)
    requires Distinct(txs) && t in txs && t.id !in done
    ensures Dealt(txs, a, done + {t.id}) ==
            Dealt(txs, a, done) + if a == t.account then 1 else 0
    ensures a == t.account ==> Dealt(txs, a, done) < |On(txs, a)|
  {
    var own := On(txs, a);
    OnDistinct(txs, a);
    if a == t.account {
      assert t in own;
    } else {
      forall x | x in own ensures x.id != t.id {
        assert x in txs && x != t;
      }
    }
    OnlyStep(own, done, t);
  }

  lemma DealtNone(txs: seq<Tx>, a: nat)
    ensures Dealt(txs, a, {}) == 0
  {
    WithoutNone(On(txs, a), {});
  }

  /** After the whole set is reverted each stack is what the remaining transactions make it. */
  lemma AccountAfterRevert(accounts: map<nat, AccountStates>, core: Core, gone: set<nat>, a: nat)
    requires Distinct(core.All()) && Closed(EdgesOf(core.log), gone)
    requires AccountAgrees(accounts, core, a, 0, 0, Dealt(core.log, a, gone))
    ensures AccountAgrees(accounts, core.Revert(gone), a, 0, 0, 0)
  {
    hide Distinct, Closed, AccountAgrees;
    var past, log := core.Past(), core.log;
    SplitDistinct(past, log, gone);
    OnAppend(past, log, a);
    OnAppend(past, Without(log, gone), a);
    DescendantsCutAccount(log, gone, a);
    var all := On(core.All(), a);
    assert On(core.Revert(gone).All(), a) == all[..|all| - Dealt(log, a, gone)];
    ShortStack(accounts, core, core.Revert(gone), a, Dealt(log, a, gone));
  }

  /** Stacks that are short by the newest states agree with the list that lacks their
      transactions. */
  lemma {:induction false} ShortStack(accounts: map<nat, AccountStates>, core: Core, core': Core,
                                      a: nat, cut: nat)
    requires AccountAgrees(accounts, core, a, 0, 0, cut)
    requires cut <= |On(core.All(), a)|
    requires On(core'.All(), a) == On(core.All(), a)[..|On(core.All(), a)| - cut]
    requires core'.blocks == core.blocks
    ensures AccountAgrees(accounts, core', a, 0, 0, 0)
  {
  }

  /** After the whole set is committed each stack is unchanged, with the pivot moved. */
  lemma {:induction false} AccountAfterCommit(accounts: map<nat, AccountStates>, core: Core,
                                              done: set<nat>, core': Core, a: nat)
    requires Distinct(core.All()) && AncestorClosed(EdgesOf(core.log), done)
    requires AccountAgrees(accounts, core, a, 0, Dealt(core.log, a, done), 0)
    requires core' == Core(core.blocks + [Only(core.log, done)], Without(core.log, done))
    ensures AccountAgrees(accounts, core', a, 0, 0, 0)
  {
    FlatPush(core.blocks, Only(core.log, done));
    CommitRearranges(core.Past(), core.log, done, a);
  }

  lemma {:induction false} CommitRearranges(past: seq<Tx>, log: seq<Tx>, done: set<nat>, a: nat)
    requires Distinct(past + log) && AncestorClosed(EdgesOf(log), done)
    ensures On(past + Only(log, done) + Without(log, done), a) == On(past + log, a)
    ensures |On(past + Only(log, done), a)| == |On(past, a)| + Dealt(log, a, done)
  {
    SplitDistinct(past, log, done);
    AncestorsSplitAccount(log, done, a);
    AppendThree(past, Only(log, done), Without(log, done), a);
    OnAppend(past, log, a);
    Commute(log, done, a);
  }

  lemma {:induction false} AppendThree(p: seq<Tx>, q: seq<Tx>, r: seq<Tx>, a: nat)
    ensures On(p + q + r, a) == On(p, a) + (On(q, a) + On(r, a))
    ensures |On(p + q, a)| == |On(p, a)| + |On(q, a)|
  {
    OnAppend(p, q, a);
    OnAppend(p + q, r, a);
  }

  /** After the oldest block is pruned each stack starts with the next one. */
  lemma AccountAfterPrune(accounts: map<nat, AccountStates>, core: Core, a: nat)
    requires core.blocks != []
    requires AccountAgrees(accounts, core, a, Dealt(core.blocks[0], a, Ids(core.blocks[0])), 0, 0)
    ensures AccountAgrees(accounts, Core(core.blocks[1..], core.log), a, 0, 0, 0)
  {
    var oldest, core' := core.blocks[0], Core(core.blocks[1..], core.log);
    FlatTail(core.blocks);
    assert core.All() == oldest + core'.All();
    OnAppend(oldest, core'.All(), a);
    OnAppend(oldest, core'.Past(), a);
    assert Ids(On(oldest, a)) <= Ids(oldest);
    WithoutAll(On(oldest, a), Ids(oldest));
    var all := On(core.All(), a);
    assert On(core'.All(), a) == all[|On(oldest, a)|..];
  }

  function EntryOf(accounts: map<nat, AccountStates>, account: nat): AccountStates {
    if account in accounts then accounts[account] else AccountStates([], 0)
  }

  ghost function Pushed(accounts: map<nat, AccountStates>, tx: Tx): map<nat, AccountStates> {
    var entry := EntryOf(accounts, tx.account);
    accounts[tx.account := entry.(states := entry.states + [(tx.final, tx.id)])]
  }

  /** An arriving transaction adds one state to its account's stack and leaves the others alone. */
  lemma AccountAfterAdd(accounts: map<nat, AccountStates>, core: Core, tx: Tx, a: nat)
    requires AccountAgrees(accounts, core, a, 0, 0, 0)
    ensures AccountAgrees(Pushed(accounts, tx), core.Add(tx), a, 0, 0, 0)
  {
    var own := On(core.All(), a);
    assert core.Add(tx).All() == core.All() + [tx];
    UnfoldOn(core.All(), tx, a);
    if a == tx.account {
      OnAppend(core.Past(), core.log, a);
      assert States(own + [tx]) == States(own) + [(tx.final, tx.id)];
    }
  }

  /** The newest uncommitted state on an account's stack is that of its latest transaction. */
  lemma ParentOnStack(accounts: map<nat, AccountStates>, core: Core, a: nat)
    requires AccountsAgree(accounts, core)
    ensures var entry := EntryOf(accounts, a);
      AccountParent(core.log, a) ==
      if entry.states != [] && entry.Uncommitted() != 0
      then {entry.states[|entry.states| - 1].1} else {}
  {
    assert AccountAgrees(accounts, core, a, 0, 0, 0);
    OnAppend(core.Past(), core.log, a);
  }

  /** The uncommitted transactions recorded for the given notes. */
  function InflightCreators(notes: map<nat, NoteState>, wanted: set<nat>): set<nat> {
    set n | n in wanted && n in notes && notes[n].Inflight? :: notes[n].tx
  }

  lemma NotesAfterAdd(notes: map<nat, NoteState>, past: seq<Tx>, log: seq<Tx>, tx: Tx)
    requires NotesAgree(notes, past, log)
    requires Elems(tx.outputs) !! Outputs(past + log)
    ensures NotesAgree(notes + map n | n in Elems(tx.outputs) :: Inflight(tx.id), past, log + [tx])
  {
    var created := map n | n in Elems(tx.outputs) :: Inflight(tx.id);
    var notes' := notes + created;
    Members(past, log);
    Members(past, log + [tx]);
    Members(log, [tx]);
    Single(tx);
    assert notes'.Keys == Outputs(past + (log + [tx]));
    forall t, n | t in past && n in t.outputs ensures notes'[n] == Committed {
      assert n in Outputs(past) && n !in created;
    }
    forall t, n | t in log + [tx] && n in t.outputs ensures notes'[n] == Inflight(t.id) {
      if t in log {
        assert n in Outputs(log) && n !in created;
      } else {
        assert n in created;
      }
    }
  }

  lemma {:induction false} CreatorsRecorded(notes: map<nat, NoteState>, past: seq<Tx>, log: seq<Tx>,
                                            wanted: set<nat>)
    requires Distinct(past + log) && NotesAgree(notes, past, log)
    ensures InflightCreators(notes, wanted) ==
            set n | n in wanted && n in Outputs(log) :: Creator(log, n)
  {
    Members(past, log);
    SplitDistinct(past, log, {});
    forall n | n in notes
      ensures notes[n].Inflight? <==> n in Outputs(log)
      ensures notes[n].Inflight? ==> notes[n].tx == Creator(log, n)
    {
      if n in Outputs(log) {
        var t :| t in log && n in t.outputs;
        CreatorUnique(log, t, n);
      }
    }
  }

  lemma TrackedAfterAdd(deltas: map<nat, Delta>, past: seq<Tx>, log: seq<Tx>, tx: Tx)
    requires DeltasAgree(deltas, log) && tx.id !in Ids(past + log)
    ensures DeltasAgree(deltas[tx.id := DeltaOf(tx)], log + [tx])
    ensures Nullifiers(past + (log + [tx])) == Nullifiers(past + log) + Elems(tx.nullifiers)
  {
    assert tx.id !in Ids(log) by {
      Members(past, log);
    }
    assert forall t :: t in log ==> t.id in Ids(log);
    hide Ids, Nullifiers, Outputs, DeltaOf;
    Members(past, log);
    Members(past, log + [tx]);
    Members(log, [tx]);
    Single(tx);
  }

  /** What disappears when one more transaction is taken out. */
  lemma {:induction false} DropOne(past: seq<Tx>, log: seq<Tx>, done: set<nat>, t: Tx)
    requires Distinct(past + log) && t in log && t.id !in done
    ensures var rest, rest' := Without(log, done), Without(log, done + {t.id});
      && Nullifiers(past + rest') == Nullifiers(past + rest) - Elems(t.nullifiers)
      && Outputs(past + rest') == Outputs(past + rest) - Elems(t.outputs)
      && Ids(rest') == Ids(rest) - {t.id}
      && forall x :: x in rest' <==> x in rest && x != t
  {
    var rest, rest' := Without(log, done), Without(log, done + {t.id});
    Members(past, log);
    Members(past, rest);
    Members(past, rest');
    NoDupSplit(past, log);
    forall x | x in past + log && x != t ensures Independent(x, t) {
    }
    forall x ensures x in rest' <==> x in rest && x != t {
      if x in rest && x != t {
        assert x in past + log;
      }
    }
    forall x | x in past ensures Independent(x, t) {
      assert x in past + log;
    }
    forall x | x in rest' ensures Independent(x, t) {
      assert x in past + log;
    }
    assert t in rest;
  }

  /** One more revert, map by map. */
  lemma {:induction false} RevertOneMore(past: seq<Tx>, log: seq<Tx>, done: set<nat>, t: Tx,
                                         nullifiers: set<nat>, notes: map<nat, NoteState>,
                                         deltas: map<nat, Delta>)
    requires Distinct(past + log) && t in log && t.id !in done
    requires nullifiers == Nullifiers(past + Without(log, done))
    requires NotesAgree(notes, past, Without(log, done))
    requires DeltasAgree(deltas, Without(log, done))
    ensures t.id in deltas && deltas[t.id] == DeltaOf(t)
    ensures Elems(t.nullifiers) <= nullifiers && Elems(t.outputs) <= notes.Keys
    ensures var rest' := Without(log, done + {t.id});
      && nullifiers - Elems(t.nullifiers) == Nullifiers(past + rest')
      && NotesAgree(notes - Elems(t.outputs), past, rest')
      && DeltasAgree(deltas - {t.id}, rest')
  {
    var rest, rest' := Without(log, done), Without(log, done + {t.id});
    DropOne(past, log, done, t);
    assert t in rest && t in past + rest;
    StrangersIn(past, log, t);
    assert forall x :: x in rest' ==> x in log && x != t;
    ForgetNotes(notes, past, rest, past, rest', t);
  }

  lemma StrangersIn(past: seq<Tx>, log: seq<Tx>, t: Tx)
    requires Distinct(past + log) && t in log
    ensures forall x :: x in past || (x in log && x != t) ==> Independent(x, t)
  {
    Members(past, log);
    NoDupSplit(past, log);
    forall x | x in past || (x in log && x != t) ensures Independent(x, t) {
      assert x in past + log && x != t;
    }
  }

  /** What changes when one more transaction is marked as committed. */
  lemma {:induction false} CommitNotes(past: seq<Tx>, log: seq<Tx>, done: set<nat>, t: Tx,
                                       notes: map<nat, NoteState>)
    requires Distinct(past + log) && t in log && t.id !in done
    requires NotesAgree(notes, past + Only(log, done), Without(log, done))
    ensures NotesAgree(MarkCommitted(notes, Elems(t.outputs)),
                       past + Only(log, done + {t.id}), Without(log, done + {t.id}))
  {
    var out, out' := Only(log, done), Only(log, done + {t.id});
    var rest, rest' := Without(log, done), Without(log, done + {t.id});
    LogSplit(log, done, t) by { SplitDistinct(past, log, {}); }
    MarkNotes(notes, past + out, rest, past + out', rest', t) by {
      Members(past, out);
      Members(past, out');
      Members(past + out, rest);
      Members(past + out', rest');
    }
  }

  lemma MarkNotes(notes: map<nat, NoteState>, past: seq<Tx>, log: seq<Tx>,
                  past': seq<Tx>, log': seq<Tx>, t: Tx)
    requires NotesAgree(notes, past, log)
    requires t in log && Outputs(past + log) == Outputs(past' + log')
    requires forall x :: x in past' ==> x in past || x == t
    requires forall x :: x in log' ==> x in log && Independent(x, t)
    ensures NotesAgree(MarkCommitted(notes, Elems(t.outputs)), past', log')
  {
    Members(past, log);
    forall x, n | x in log' && n in x.outputs ensures n !in Elems(t.outputs) {
      assert n in Elems(x.outputs) && Independent(x, t);
    }
    forall n | n in t.outputs ensures n in notes {
      assert n in Outputs(log);
    }
  }

  lemma {:induction false} CommitDeltas(log: seq<Tx>, done: set<nat>, t: Tx,
                                        deltas: map<nat, Delta>, block: map<nat, Delta>)
    requires Distinct(log) && t in log && t.id !in done
    requires DeltasAgree(deltas, Without(log, done)) && DeltasAgree(block, Only(log, done))
    ensures deltas[t.id] == DeltaOf(t)
    ensures DeltasAgree(deltas - {t.id}, Without(log, done + {t.id}))
    ensures DeltasAgree(block[t.id := DeltaOf(t)], Only(log, done + {t.id}))
  {
    LogSplit(log, done, t);
    assert t in Without(log, done);
  }

  lemma {:induction false} LogSplit(log: seq<Tx>, done: set<nat>, t: Tx)
    requires Distinct(log) && t in log && t.id !in done
    ensures forall x :: x in Only(log, done + {t.id}) <==> x in Only(log, done) || x == t
    ensures forall x :: x in Without(log, done + {t.id}) <==> x in Without(log, done) && x != t
    ensures Ids(Only(log, done + {t.id})) == Ids(Only(log, done)) + {t.id}
    ensures Ids(Without(log, done + {t.id})) == Ids(Without(log, done)) - {t.id}
    ensures Outputs(Only(log, done + {t.id})) == Outputs(Only(log, done)) + Elems(t.outputs)
    ensures Outputs(Without(log, done)) == Outputs(Without(log, done + {t.id})) + Elems(t.outputs)
    ensures forall x :: x in Without(log, done) && x != t ==> Independent(x, t)
  {
    forall x | x in log && x != t ensures Independent(x, t) {
    }
    forall x ensures x in Only(log, done + {t.id}) <==> x in Only(log, done) || x == t {
    }
    forall x ensures x in Without(log, done + {t.id}) <==> x in Without(log, done) && x != t {
    }
  }

  function MarkCommitted(notes: map<nat, NoteState>, which: set<nat>): map<nat, NoteState> {
    map n | n in notes :: if n in which then Committed else notes[n]
  }

  lemma {:induction false} SamePool(past: seq<Tx>, log: seq<Tx>, done: set<nat>)
    ensures Nullifiers(past + Only(log, done) + Without(log, done)) == Nullifiers(past + log)
  {
    var out, rest := Only(log, done), Without(log, done);
    Members(past, log);
    Members(past, out);
    Members(past + out, rest);
    forall t | t in log ensures t in out || t in rest {
    }
    assert Nullifiers(log) == Nullifiers(out) + Nullifiers(rest);
  }

  /** What disappears when one more transaction of the oldest block is pruned. */
  lemma {:induction false} PruneNullifiers(oldest: seq<Tx>, newer: seq<Tx>, done: set<nat>, t: Tx)
    requires Distinct(oldest + newer) && t in oldest && t.id !in done
    ensures Nullifiers(Without(oldest, done + {t.id}) + newer) ==
            Nullifiers(Without(oldest, done) + newer) - Elems(t.nullifiers)
  {
    StrangersTo(oldest, newer, t);
    SplitDistinct(oldest, newer, {});
    NullifiersSplit(oldest, done, t);
    Members(Without(oldest, done), newer);
    Members(Without(oldest, done + {t.id}), newer);
  }

  lemma StrangersTo(oldest: seq<Tx>, newer: seq<Tx>, t: Tx)
    requires Distinct(oldest + newer) && t in oldest
    ensures forall x :: x in newer ==> Independent(x, t)
  {
    Members(oldest, newer);
    NoDupSplit(oldest, newer);
    forall x | x in newer ensures Independent(x, t) {
      assert x in oldest + newer && x != t;
    }
  }

  lemma {:induction false} PruneNotes(oldest: seq<Tx>, past: seq<Tx>, log: seq<Tx>, done: set<nat>,
                                      t: Tx, notes: map<nat, NoteState>)
    requires Distinct(oldest + (past + log)) && t in oldest && t.id !in done
    requires NotesAgree(notes, Without(oldest, done) + past, log)
    ensures NotesAgree(notes - Elems(t.outputs), Without(oldest, done + {t.id}) + past, log)
  {
    StrangersTo(oldest, past + log, t);
    Members(past, log);
    SplitDistinct(oldest, past + log, {});
    PruneOutputs(oldest, past, log, done, t);
    ForgetNotes(notes, Without(oldest, done) + past, log,
                Without(oldest, done + {t.id}) + past, log, t);
  }

  lemma {:induction false} PruneOutputs(oldest: seq<Tx>, past: seq<Tx>, log: seq<Tx>,
                                        done: set<nat>, t: Tx)
    requires Distinct(oldest) && t in oldest && t.id !in done
    requires forall x :: x in past || x in log ==> Independent(x, t)
    ensures var rest, rest' := Without(oldest, done) + past, Without(oldest, done + {t.id}) + past;
      && (forall x :: x in rest' ==> x in rest && Independent(x, t))
      && Outputs(rest + log) - Elems(t.outputs) == Outputs(rest' + log)
  {
    var rest, rest' := Without(oldest, done), Without(oldest, done + {t.id});
    LogSplit(oldest, done, t);
    Members(rest, past);
    Members(rest', past);
    Members(rest + past, log);
    Members(rest' + past, log);
    forall n | n in Outputs(rest' + past + log) ensures n !in Elems(t.outputs) {
      var x :| x in rest' + past + log && n in x.outputs;
      assert n in Elems(x.outputs) && Independent(x, t);
    }
    hide Outputs, Independent;
  }

  /** Forgetting the notes of a transaction that is no longer listed. */
  lemma ForgetNotes(notes: map<nat, NoteState>, past: seq<Tx>, log: seq<Tx>, past': seq<Tx>,
                    log': seq<Tx>, t: Tx)
    requires NotesAgree(notes, past, log)
    requires forall x :: x in past' ==> x in past && Independent(x, t)
    requires forall x :: x in log' ==> x in log && Independent(x, t)
    requires Outputs(past + log) - Elems(t.outputs) == Outputs(past' + log')
    ensures NotesAgree(notes - Elems(t.outputs), past', log')
  {
    forall x, n | (x in past' || x in log') && n in x.outputs ensures n !in Elems(t.outputs) {
      assert n in Elems(x.outputs) && Independent(x, t);
    }
  }

  lemma {:induction false} NullifiersSplit(txs: seq<Tx>, done: set<nat>, t: Tx)
    requires Distinct(txs) && t in txs && t.id !in done
    ensures Nullifiers(Without(txs, done)) ==
            Nullifiers(Without(txs, done + {t.id})) + Elems(t.nullifiers)
    ensures Nullifiers(Without(txs, done + {t.id})) !! Elems(t.nullifiers)
  {
    LogSplit(txs, done, t);
    assert t in Without(txs, done);
  }

  lemma {:induction false} OldestFirst(core: Core, a: nat)
    requires core.blocks != [] && Distinct(core.All())
    ensures Distinct(core.blocks[0])
    ensures |On(core.blocks[0], a)| <= |On(core.Past(), a)| <= |On(core.All(), a)|
  {
    FlatTail(core.blocks);
    var rest := Flat(core.blocks[1..]);
    assert core.All() == core.blocks[0] + (rest + core.log);
    SplitDistinct(core.blocks[0], rest + core.log, {});
    OnAppend(core.blocks[0], rest, a);
    OnAppend(core.Past(), core.log, a);
  }

  class InflightState {
    var accounts: map<nat, AccountStates>
    var nullifiers: set<nat>
    var outputNotes: map<nat, NoteState>
    var deltas: map<nat, Delta>
    var committedBlocks: seq<map<nat, Delta>>
    var chainTip: nat
    const numRetained: nat
    const slack: nat

    ghost var core: Core

    ghost predicate Valid()
      reads this
    {
      var valid :=
        core.Consistent(chainTip) && Agrees();
      valid
    }

    ghost predicate Agrees()
      reads this
    {
      var agrees :=
        Describes(core, accounts, nullifiers, outputNotes, deltas) && BlocksAgree();
      agrees
    }

    ghost predicate BlocksAgree()
      reads this
    {
      && |committedBlocks| == |core.blocks|
      && forall i :: 0 <= i < |core.blocks| ==> DeltasAgree(committedBlocks[i], core.blocks[i])
    }

    constructor (chainTip: nat, numRetained: nat, slack: nat)
      ensures Valid()
      ensures core == Core([], [])
      ensures this.chainTip == chainTip
      ensures this.numRetained == numRetained && this.slack == slack
    {
      this.chainTip, this.numRetained, this.slack := chainTip, numRetained, slack;
      accounts, nullifiers, outputNotes, deltas, committedBlocks := map[], {}, map[], map[], [];
      core := Core([], []);
    }

    /** The check of `Core.Verify`, from the maps. */
    method VerifyTransaction(tx: Tx) returns (r: Outcome<AddError>)
      requires Valid()
      ensures r == core.Verify(chainTip, slack, tx)
    {
      if tx.expiresAt <= chainTip + slack {
        return Fail(Expired(tx.expiresAt, chainTip + slack));
      }
      var staleLimit := chainTip - |committedBlocks|;
      if tx.authHeight < staleLimit {
        return Fail(StaleInputs(tx.authHeight, staleLimit));
      }
      var current := tx.storeState;
      assert AccountAgrees(accounts, core, tx.account, 0, 0, 0);
      if tx.account in accounts && accounts[tx.account].states != [] {
        var states := accounts[tx.account].states;
        current := Some(states[|states| - 1].0);
      }
      if tx.initial != (if current.Some? then current.value else 0) {
        return Fail(IncorrectAccountInitialCommitment(tx.initial, current));
      }
      var spent := set n | n in tx.nullifiers && n in nullifiers;
      assert spent == Elems(tx.nullifiers) * Nullifiers(core.All());
      if spent != {} {
        return Fail(InputNotesAlreadyConsumed(spent));
      }
      var duplicates := set n | n in tx.outputs && n in outputNotes;
      assert duplicates == Elems(tx.outputs) * Outputs(core.All());
      if duplicates != {} {
        return Fail(OutputNotesAlreadyExist(duplicates));
      }
      var missing := set n | n in tx.unauthenticated && n !in outputNotes;
      assert missing == tx.unauthenticated - Outputs(core.All());
      if missing != {} {
        return Fail(UnauthenticatedNotesNotFound(missing));
      }
      r := Pass;
    }

    /** Admits a transaction, returning the uncommitted ones it depends on. */
    method AddTransaction(tx: Tx) returns (r: Result<set<nat>, AddError>)
      requires Valid()
      requires NewIfValid(core, chainTip, slack, tx)
      modifies this
      ensures Valid() && chainTip == old(chainTip)
      ensures var v := old(core.Verify(chainTip, slack, tx));
        if v.Pass? then r == Ok(ParentsIn(old(core.log), tx)) && core == old(core).Add(tx)
        else r == Err(v.error) && core == old(core)
    {
      var v := VerifyTransaction(tx);
      if v.Fail? {
        return Err(v.error);
      }
      VerifiedIsAdmissible(core, chainTip, slack, tx);
      var parents := InsertTransaction(tx);
      r := Ok(parents);
    }

    method InsertTransaction(tx: Tx) returns (parents: set<nat>)
      requires Valid() && Admissible(core, tx)
      modifies `deltas, `accounts, `nullifiers, `outputNotes, `core
      ensures Valid()
      ensures core == old(core).Add(tx)
      ensures parents == ParentsIn(old(core.log), tx)
    {
      AddKeepsConsistent(core, chainTip, tx);
      TrackedAfterAdd(deltas, core.Past(), core.log, tx);
      deltas := deltas[tx.id := DeltaOf(tx)];
      var accountParent := PushState(tx);
      nullifiers := nullifiers + Elems(tx.nullifiers);
      var noteParents := AddNotes(tx);
      parents := accountParent + noteParents;
      assert Describes(core.Add(tx), accounts, nullifiers, outputNotes, deltas);
      core := core.Add(tx);
    }

    /** Appends the new account state, returning the previous transaction of the account unless
        that is committed. */
    method PushState(tx: Tx) returns (parent: set<nat>)
      requires AccountsAgree(accounts, core)
      modifies `accounts
      ensures AccountsAgree(accounts, core.Add(tx))
      ensures parent == AccountParent(core.log, tx.account)
    {
      hide AccountAgrees;
      ghost var pushed := Pushed(accounts, tx);
      forall a: nat ensures AccountAgrees(pushed, core.Add(tx), a, 0, 0, 0) {
        assert AccountAgrees(accounts, core, a, 0, 0, 0);
        AccountAfterAdd(accounts, core, tx, a);
      }
      ParentOnStack(accounts, core, tx.account);
      var account := EntryOf(accounts, tx.account);
      parent := {};
      if account.states != [] && account.Uncommitted() != 0 {
        parent := {account.states[|account.states| - 1].1};
      }
      accounts := accounts[tx.account :=
        account.(states := account.states + [(tx.final, tx.id)])];
      assert accounts == pushed;
    }

    /** Records the transaction's notes, returning the uncommitted creators of those it consumes. */
    method AddNotes(tx: Tx) returns (parents: set<nat>)
      requires Distinct(core.All()) && NotesAgree(outputNotes, core.Past(), core.log)
      requires tx.unauthenticated <= Outputs(core.All())
      requires Elems(tx.outputs) !! Outputs(core.All())
      modifies `outputNotes
      ensures NotesAgree(outputNotes, core.Past(), core.log + [tx])
      ensures parents ==
        set n | n in tx.unauthenticated && n in Outputs(core.log) :: Creator(core.log, n)
    {
      NotesAfterAdd(outputNotes, core.Past(), core.log, tx);
      CreatorsRecorded(outputNotes, core.Past(), core.log, tx.unauthenticated);
      outputNotes := outputNotes + map n | n in Elems(tx.outputs) :: Inflight(tx.id);
      // None of the wanted notes is one the transaction itself creates.
      parents := InflightCreators(outputNotes, tx.unauthenticated);
    }

    /** Undoes a set of uncommitted transactions that takes all its descendants with it. The
        order of the walk is that of the ids, not of arrival. */
    method RevertTransactions(gone: set<nat>)
      requires Valid()
      requires gone <= Ids(core.log) && Closed(EdgesOf(core.log), gone)
      modifies this
      ensures Valid() && chainTip == old(chainTip)
      ensures core == old(core).Revert(gone)
    {
      hide Distinct, Closed, NotesAgree, DeltasAgree, AccountsAgree, InflightState.Reverting;
      RevertStart();
      UndoAll(gone);
      RevertEnd(gone);
      RevertKeepsConsistent(core, chainTip, gone);
      core := core.Revert(gone);
    }

    method UndoAll(gone: set<nat>)
      requires Distinct(core.All()) && gone <= Ids(core.log) && Reverting({})
      modifies `deltas, `accounts, `nullifiers, `outputNotes
      ensures Reverting(gone)
    {
      hide Distinct, InflightState.Reverting;
      var todo := gone;
      ghost var done: set<nat> := {};
      while todo != {}
        invariant todo !! done && todo + done == gone
        invariant Reverting(done)
        decreases todo
      {
        var id := Min(todo);
        RevertOne(id, done);
        todo := todo - {id};
        done := done + {id};
      }
      assert done == gone;
    }

    lemma RevertStart()
      requires Describes(core, accounts, nullifiers, outputNotes, deltas)
      ensures Reverting({})
    {
      hide Distinct, NotesAgree, DeltasAgree, Nullifiers;
      WithoutNone(core.log, {});
      forall a: nat ensures AccountAgrees(accounts, core, a, 0, 0, Dealt(core.log, a, {})) {
        DealtNone(core.log, a);
        assert AccountAgrees(accounts, core, a, 0, 0, 0);
      }
    }

    lemma RevertEnd(gone: set<nat>)
      requires Distinct(core.All()) && Closed(EdgesOf(core.log), gone) && Reverting(gone)
      ensures Describes(core.Revert(gone), accounts, nullifiers, outputNotes, deltas)
    {
      hide Distinct, Closed, NotesAgree, DeltasAgree, Nullifiers, AccountAgrees;
      forall a: nat ensures AccountAgrees(accounts, core.Revert(gone), a, 0, 0, 0) {
        AccountAfterRevert(accounts, core, gone, a);
      }
    }

    /** What holds when the transactions in `done` are undone: all but the account stacks are as
        if those had never arrived, and each stack is short by as many states as its account has
        transactions among them. */
    ghost predicate Reverting(done: set<nat>)
      reads this
    {
      var rest := Without(core.log, done);
      var reverting :=
        && nullifiers == Nullifiers(core.Past() + rest)
        && NotesAgree(outputNotes, core.Past(), rest)
        && DeltasAgree(deltas, rest)
        && forall a: nat :: AccountAgrees(accounts, core, a, 0, 0, Dealt(core.log, a, done));
      reverting
    }

    method RevertOne(id: nat, ghost done: set<nat>)
      requires Distinct(core.All()) && Reverting(done)
      requires id in Ids(core.log) - done
      modifies `deltas, `accounts, `nullifiers, `outputNotes
      ensures Reverting(done + {id})
    {
      hide Distinct, NotesAgree, AccountAgrees, Nullifiers, Dealt;
      ghost var t :| t in core.log && t.id == id;
      RevertOneMore(core.Past(), core.log, done, t, nullifiers, outputNotes, deltas);
      var delta := deltas[id];
      deltas := deltas - {id};
      PopState(delta.account, t, done);
      assert delta.nullifiers <= nullifiers;  // "nullifier must exist"
      nullifiers := nullifiers - delta.nullifiers;
      assert delta.notes <= outputNotes.Keys;  // "output note must exist"
      outputNotes := outputNotes - delta.notes;
    }

    method PopState(account: nat, ghost t: Tx, ghost done: set<nat>)
      requires Distinct(core.All()) && t in core.log && t.id !in done && account == t.account
      requires forall a: nat :: AccountAgrees(accounts, core, a, 0, 0, Dealt(core.log, a, done))
      modifies `accounts
      ensures forall a: nat ::
        AccountAgrees(accounts, core, a, 0, 0, Dealt(core.log, a, done + {t.id}))
    {
      SplitDistinct(core.Past(), core.log, {});
      forall a: nat
        ensures Dealt(core.log, a, done + {t.id}) ==
                Dealt(core.log, a, done) + if a == t.account then 1 else 0
        ensures a == t.account ==> Dealt(core.log, a, done) < |On(core.log, a)|
        ensures AccountAgrees(accounts, core, a, 0, 0, Dealt(core.log, a, done))
      {
        DealtStep(core.log, done, t, a);
      }
      OnAppend(core.Past(), core.log, account);
      var entry := accounts[account];
      assert entry.Uncommitted() >= 1;
      var states := entry.states[..|entry.states| - 1];
      if states == [] {
        accounts := accounts - {account};
      } else {
        accounts := accounts[account := entry.(states := states)];
      }
    }

    /** Marks uncommitted transactions, given with all their ancestors, as a committed block. */
    method CommitBlock(txs: seq<nat>)
      requires Valid()
      requires NoDup(txs) && Elems(txs) <= Ids(core.log)
      requires AncestorClosed(EdgesOf(core.log), Elems(txs))
      modifies this
      ensures Valid() && chainTip == old(chainTip) + 1
      ensures core == old(core).Commit(Elems(txs), numRetained)
    {
      CommitKeepsConsistent(core, chainTip, Elems(txs), numRetained);
      var blockDeltas := MarkAll(txs);
      PushBlock(Elems(txs), blockDeltas);
      PruneBlock();
      chainTip := chainTip + 1;
    }

    method MarkAll(txs: seq<nat>) returns (blockDeltas: map<nat, Delta>)
      requires Distinct(core.All())
      requires Describes(core, accounts, nullifiers, outputNotes, deltas)
      requires NoDup(txs) && Elems(txs) <= Ids(core.log)
      modifies `deltas, `accounts, `outputNotes
      ensures Committing(Elems(txs), blockDeltas)
    {
      hide Distinct, Describes, InflightState.Committing;
      CommitStart();
      blockDeltas := map[];
      ghost var done: set<nat> := {};
      for i := 0 to |txs|
        invariant done == Elems(txs[..i])
        invariant Committing(done, blockDeltas)
      {
        assert txs[i] in Elems(txs) && txs[i] !in txs[..i];
        blockDeltas := CommitOne(txs[i], done, blockDeltas);
        done := done + {txs[i]};
      }
      assert txs[..|txs|] == txs;
    }

    method PushBlock(ghost done: set<nat>, blockDeltas: map<nat, Delta>)
      requires Valid0() && Committing(done, blockDeltas)
      requires AncestorClosed(EdgesOf(core.log), done)
      modifies `committedBlocks, `core
      ensures core ==
        Core(old(core).blocks + [Only(old(core).log, done)], Without(old(core).log, done))
      ensures Distinct(core.All()) && Agrees()
    {
      CommitEnd(done, blockDeltas);
      committedBlocks := committedBlocks + [blockDeltas];
      core := Core(core.blocks + [Only(core.log, done)], Without(core.log, done));
    }

    /** What holds when the transactions in `done` are marked. */
    ghost predicate Committing(done: set<nat>, blockDeltas: map<nat, Delta>)
      reads this
    {
      var committing :=
        && NotesAgree(outputNotes, core.Past() + Only(core.log, done), Without(core.log, done))
        && DeltasAgree(deltas, Without(core.log, done))
        && DeltasAgree(blockDeltas, Only(core.log, done))
        && forall a: nat :: AccountAgrees(accounts, core, a, 0, Dealt(core.log, a, done), 0);
      committing
    }

    lemma CommitStart()
      requires Describes(core, accounts, nullifiers, outputNotes, deltas)
      ensures Committing({}, map[])
    {
      WithoutNone(core.log, {});
      assert core.Past() + [] == core.Past();
      forall a: nat ensures AccountAgrees(accounts, core, a, 0, Dealt(core.log, a, {}), 0) {
        DealtNone(core.log, a);
        assert AccountAgrees(accounts, core, a, 0, 0, 0);
      }
    }

    method CommitOne(id: nat, ghost done: set<nat>, blockDeltas: map<nat, Delta>)
        returns (blockDeltas': map<nat, Delta>)
      requires Distinct(core.All()) && Committing(done, blockDeltas)
      requires id in Ids(core.log) - done
      modifies `deltas, `accounts, `outputNotes
      ensures Committing(done + {id}, blockDeltas')
    {
      hide NotesAgree, AccountAgrees, Dealt;
      ghost var t :| t in core.log && t.id == id;
      SplitDistinct(core.Past(), core.log, {});
      hide Distinct;
      CommitNotes(core.Past(), core.log, done, t, outputNotes);
      CommitDeltas(core.log, done, t, deltas, blockDeltas);
      var delta := deltas[id];
      deltas := deltas - {id};
      AdvancePivot(delta.account, t, done);
      outputNotes := MarkCommitted(outputNotes, delta.notes);
      blockDeltas' := blockDeltas[id := delta];
    }

    method AdvancePivot(account: nat, ghost t: Tx, ghost done: set<nat>)
      requires Distinct(core.All()) && t in core.log && t.id !in done && account == t.account
      requires forall a: nat :: AccountAgrees(accounts, core, a, 0, Dealt(core.log, a, done), 0)
      modifies `accounts
      ensures forall a: nat ::
        AccountAgrees(accounts, core, a, 0, Dealt(core.log, a, done + {t.id}), 0)
    {
      SplitDistinct(core.Past(), core.log, {});
      forall a: nat
        ensures Dealt(core.log, a, done + {t.id}) ==
                Dealt(core.log, a, done) + if a == t.account then 1 else 0
        ensures a == t.account ==> Dealt(core.log, a, done) < |On(core.log, a)|
        ensures AccountAgrees(accounts, core, a, 0, Dealt(core.log, a, done), 0)
      {
        DealtStep(core.log, done, t, a);
      }
      OnAppend(core.Past(), core.log, account);
      var entry := accounts[account];
      assert entry.Uncommitted() >= 1;
      accounts := accounts[account := entry.(committed := entry.committed + 1)];
    }

    /** Once all are marked, the fields describe the state with one more block. */
    lemma {:induction false} CommitEnd(done: set<nat>, blockDeltas: map<nat, Delta>)
      requires Valid0() && Committing(done, blockDeltas)
      requires AncestorClosed(EdgesOf(core.log), done)
      ensures var core' := Core(core.blocks + [Only(core.log, done)], Without(core.log, done));
        && AccountsAgree(accounts, core')
        && nullifiers == Nullifiers(core'.All())
        && NotesAgree(outputNotes, core'.Past(), core'.log)
        && Distinct(core'.All())
    {
      var core' := Core(core.blocks + [Only(core.log, done)], Without(core.log, done));
      FlatPush(core.blocks, Only(core.log, done));
      SplitDistinct(core.Past(), core.log, done);
      forall a: nat ensures AccountAgrees(accounts, core', a, 0, 0, 0) {
        AccountAfterCommit(accounts, core, done, core', a);
      }
      SamePool(core.Past(), core.log, done);
    }

    /** The part of validity that a commit in progress keeps. */
    ghost predicate Valid0()
      reads this
    {
      core.Consistent(chainTip) && nullifiers == Nullifiers(core.All()) && BlocksAgree()
    }

    /** Drops the oldest retained block if there are more than we keep. */
    method PruneBlock()
      requires Distinct(core.All()) && Agrees()
      modifies `accounts, `nullifiers, `outputNotes, `committedBlocks, `core
      ensures core == old(core).PruneBlock(numRetained)
      ensures Agrees()
    {
      if |committedBlocks| <= numRetained {
        return;
      }
      var block := committedBlocks[0];
      PruneStart();
      var todo := block.Keys;
      ghost var done: set<nat> := {};
      while todo != {}
        invariant todo !! done && todo + done == block.Keys
        invariant Pruning(done)
        modifies `accounts, `nullifiers, `outputNotes
        decreases todo
      {
        var id := Min(todo);
        PruneOne(id, block[id], done);
        todo := todo - {id};
        done := done + {id};
      }
      assert done == Ids(core.blocks[0]);
      PruneEnd();
      committedBlocks := committedBlocks[1..];
      core := Core(core.blocks[1..], core.log);
    }

    /** What holds when the transactions `done` of the oldest block are pruned. */
    ghost predicate Pruning(done: set<nat>)
      requires core.blocks != []
      reads this
    {
      var oldest := Without(core.blocks[0], done);
      && nullifiers == Nullifiers(oldest + (Flat(core.blocks[1..]) + core.log))
      && NotesAgree(outputNotes, oldest + Flat(core.blocks[1..]), core.log)
      && forall a: nat :: AccountAgrees(accounts, core, a, Dealt(core.blocks[0], a, done), 0, 0)
    }

    lemma PruneStart()
      requires core.blocks != [] && Agrees()
      ensures Pruning({})
    {
      hide Distinct, NotesAgree, DeltasAgree, Nullifiers, InflightState.BlocksAgree;
      FlatTail(core.blocks);
      WithoutNone(core.blocks[0], {});
      assert core.All() == core.blocks[0] + (Flat(core.blocks[1..]) + core.log);
      forall a: nat
        ensures AccountAgrees(accounts, core, a, Dealt(core.blocks[0], a, {}), 0, 0)
      {
        DealtNone(core.blocks[0], a);
        assert AccountAgrees(accounts, core, a, 0, 0, 0);
      }
    }

    lemma PruneEnd()
      requires core.blocks != [] && Pruning(Ids(core.blocks[0]))
      ensures var core' := Core(core.blocks[1..], core.log);
        && AccountsAgree(accounts, core')
        && nullifiers == Nullifiers(core'.All())
        && NotesAgree(outputNotes, core'.Past(), core'.log)
    {
      var core' := Core(core.blocks[1..], core.log);
      WithoutAll(core.blocks[0], Ids(core.blocks[0]));
      assert [] + core'.All() == core'.All() && [] + core'.Past() == core'.Past();
      forall a: nat ensures AccountAgrees(accounts, core', a, 0, 0, 0) {
        AccountAfterPrune(accounts, core, a);
      }
    }

    method PruneOne(id: nat, delta: Delta, ghost done: set<nat>)
      requires core.blocks != [] && Distinct(core.All()) && Pruning(done)
      requires id in Ids(core.blocks[0]) - done
      requires forall t :: t in core.blocks[0] && t.id == id ==> delta == DeltaOf(t)
      modifies `accounts, `nullifiers, `outputNotes
      ensures Pruning(done + {id})
    {
      ghost var t :| t in core.blocks[0] && t.id == id;
      FlatTail(core.blocks);
      assert core.All() == core.blocks[0] + (Flat(core.blocks[1..]) + core.log);
      PruneNullifiers(core.blocks[0], Flat(core.blocks[1..]) + core.log, done, t);
      PruneNotes(core.blocks[0], Flat(core.blocks[1..]), core.log, done, t, outputNotes);
      PopOldest(delta.account, t, done);
      nullifiers := nullifiers - delta.nullifiers;
      outputNotes := outputNotes - delta.notes;
    }

    method PopOldest(account: nat, ghost t: Tx, ghost done: set<nat>)
      requires core.blocks != [] && Distinct(core.All())
      requires t in core.blocks[0] && t.id !in done && account == t.account
      requires forall a: nat ::
        AccountAgrees(accounts, core, a, Dealt(core.blocks[0], a, done), 0, 0)
      modifies `accounts
      ensures forall a: nat ::
        AccountAgrees(accounts, core, a, Dealt(core.blocks[0], a, done + {t.id}), 0, 0)
    {
      OldestFirst(core, account);
      forall a: nat
        ensures Dealt(core.blocks[0], a, done + {t.id}) ==
                Dealt(core.blocks[0], a, done) + if a == t.account then 1 else 0
        ensures a == t.account ==> Dealt(core.blocks[0], a, done) < |On(core.blocks[0], a)|
        ensures AccountAgrees(accounts, core, a, Dealt(core.blocks[0], a, done), 0, 0)
      {
        DealtStep(core.blocks[0], done, t, a);
      }
      var entry := accounts[account];
      assert entry.committed >= 1;
      var states := entry.states[1..];
      if states == [] {
        accounts := accounts - {account};
      } else {
        accounts := accounts[account := AccountStates(states, entry.committed - 1)];
      }
    }
  }
}
