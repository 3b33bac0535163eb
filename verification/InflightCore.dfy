/** What the in-flight state means: the recently committed blocks that are retained, and the
    uncommitted transactions in arrival order. Everything `InflightState` stores is a function of
    the two. */
module InflightCores {
  import opened Prelude
  import opened Transactions

  datatype AddError =
    | Expired(expiredAt: nat, limit: nat)
    | StaleInputs(inputBlock: nat, staleLimit: nat)
    | IncorrectAccountInitialCommitment(expected: nat, current: Option<nat>)
    | InputNotesAlreadyConsumed(spent: set<nat>)
    | OutputNotesAlreadyExist(duplicates: set<nat>)
    | UnauthenticatedNotesNotFound(missing: set<nat>)

  function Flat(blocks: seq<seq<Tx>>): seq<Tx> {
    if blocks == [] then [] else Flat(blocks[..|blocks| - 1]) + blocks[|blocks| - 1]
  }

  lemma {:induction false} FlatTail(blocks: seq<seq<Tx>>)
    requires blocks != []
    ensures Flat(blocks) == blocks[0] + Flat(blocks[1..])
    decreases |blocks|
  {
    if |blocks| > 1 {
      var front := blocks[..|blocks| - 1];
      FlatTail(front);
      assert front[1..] == blocks[1..][..|blocks| - 2];
    }
  }

  datatype Core = Core(blocks: seq<seq<Tx>>, log: seq<Tx>) {

    function Past(): seq<Tx> {
      Flat(blocks)
    }

    function All(): seq<Tx> {
      Flat(blocks) + log
    }

    ghost predicate Consistent(tip: nat) {
      var consistent :=
        Distinct(All()) && |blocks| <= tip;
      consistent
    }

    /** The account's latest commitment: in flight, else recently committed, else the store's. */
    function CurrentState(tx: Tx): Option<nat> {
      var own := On(All(), tx.account);
      if own == [] then tx.storeState else Some(own[|own| - 1].final)
    }

    /** Why a transaction is rejected, checked in the order of the node. */
    function Verify(tip: nat, slack: nat, tx: Tx): Outcome<AddError>
      requires |blocks| <= tip
    {
      var current := CurrentState(tx);
      var spent := Elems(tx.nullifiers) * Nullifiers(All());
      var duplicates := Elems(tx.outputs) * Outputs(All());
      var missing := tx.unauthenticated - Outputs(All());
      if tx.expiresAt <= tip + slack then Fail(Expired(tx.expiresAt, tip + slack))
      else if tx.authHeight < tip - |blocks| then Fail(StaleInputs(tx.authHeight, tip - |blocks|))
      else if tx.initial != (if current.Some? then current.value else 0) then
        Fail(IncorrectAccountInitialCommitment(tx.initial, current))
      else if spent != {} then Fail(InputNotesAlreadyConsumed(spent))
      else if duplicates != {} then Fail(OutputNotesAlreadyExist(duplicates))
      else if missing != {} then Fail(UnauthenticatedNotesNotFound(missing))
      else Pass
    }

    function Add(tx: Tx): Core {
      Core(blocks, log + [tx])
    }

    function Revert(gone: set<nat>): Core {
      Core(blocks, Without(log, gone))
    }

    /** The transactions `done` become the newest retained block; the oldest one is dropped when
        there are more than `retain`. */
    function Commit(done: set<nat>, retain: nat): Core {
      Core(blocks + [Only(log, done)], Without(log, done)).PruneBlock(retain)
    }

    function PruneBlock(retain: nat): Core {
      if |blocks| <= retain then this else Core(blocks[1..], log)
    }
  }

  // ---------------------------------------------------------------------------------------------
  // What it takes to be accepted

  /** The last transaction of the account is at index `i`. */
  predicate IsLast(txs: seq<Tx>, account: nat, i: nat) {
    i < |txs| && txs[i].account == account &&
    forall j :: i < j < |txs| ==> txs[j].account != account
  }

  /** The transaction starts from the state in which the last one of its account left it. */
  ghost predicate Continues(txs: seq<Tx>, tx: Tx) {
    forall i: nat :: IsLast(txs, tx.account, i) ==> tx.initial == txs[i].final
  }

  /** The state to start from when no transaction of the account is tracked; an account that the
      store does not know starts from zero. */
  function StoredState(tx: Tx): nat {
    if tx.storeState.Some? then tx.storeState.value else 0
  }

  ghost predicate StartsRight(txs: seq<Tx>, tx: Tx) {
    && Continues(txs, tx)
    && ((forall t :: t in txs ==> t.account != tx.account) ==> tx.initial == StoredState(tx))
  }

  lemma LastPush(f: seq<Tx>, t: Tx, account: nat, i: nat)
    ensures IsLast(f + [t], account, i) <==>
            if t.account == account then i == |f| else IsLast(f, account, i)
  {
    var all := f + [t];
    assert all[|f|] == t;
    if t.account != account && IsLast(all, account, i) {
      assert i < |f| && all[i] == f[i];
      forall j | i < j < |f| ensures f[j].account != account {
        assert all[j] == f[j];
      }
    }
  }

  lemma {:induction false} NoneOn(txs: seq<Tx>, account: nat)
    ensures On(txs, account) == [] <==> forall t :: t in txs ==> t.account != account
    decreases |txs|
  {
    if txs != [] {
      var f, t := txs[..|txs| - 1], txs[|txs| - 1];
      assert txs == f + [t];
      UnfoldOn(f, t, account);
      hide On;
      NoneOn(f, account);
      assert forall x :: x in txs <==> x in f || x == t;
    }
  }

  lemma {:induction false} LastOn(txs: seq<Tx>, account: nat)
    requires On(txs, account) != []
    ensures var own := On(txs, account);
      exists i: nat :: IsLast(txs, account, i) && txs[i] == own[|own| - 1]
    decreases |txs|
  {
    var n := |txs| - 1;
    var f, t := txs[..n], txs[n];
    assert txs == f + [t];
    UnfoldOn(f, t, account);
    var own, before := On(txs, account), On(f, account);
    if t.account == account {
      LastPush(f, t, account, n);
    } else {
      LastOn(f, account);
      hide On;
      var i: nat :| IsLast(f, account, i) && f[i] == before[|before| - 1];
      LastPush(f, t, account, i);
    }
  }

  lemma {:induction false} StartsExactly(core: Core, tx: Tx)
    ensures StartsRight(core.All(), tx) <==>
      var current := core.CurrentState(tx);
      tx.initial == if current.Some? then current.value else 0
  {
    var all := core.All();
    NoneOn(all, tx.account);
    if On(all, tx.account) != [] {
      LastOn(all, tx.account);
      hide On;
      var i: nat :| IsLast(all, tx.account, i) &&
                    all[i] == On(all, tx.account)[|On(all, tx.account)| - 1];
      assert forall j: nat :: IsLast(all, tx.account, j) ==> j == i;
      assert all[i] in all;
    }
  }

  ghost predicate Spendable(core: Core, tx: Tx) {
    forall n, t :: n in tx.nullifiers && t in core.All() ==> n !in t.nullifiers
  }

  ghost predicate Creatable(core: Core, tx: Tx) {
    forall n, t :: n in tx.outputs && t in core.All() ==> n !in t.outputs
  }

  ghost predicate Sourced(core: Core, tx: Tx) {
    forall n :: n in tx.unauthenticated ==> exists t :: t in core.All() && n in t.outputs
  }

  /** A transaction passes exactly when it expires more than the slack above the tip, was
      authenticated at a height that the tracked blocks reach back to, starts where its account
      was left, consumes and creates nothing that a tracked transaction did, and finds all its
      unauthenticated notes among those that tracked transactions create. */
  lemma {:induction false} AcceptedExactly(core: Core, tip: nat, slack: nat, tx: Tx)
    requires |core.blocks| <= tip
    ensures core.Verify(tip, slack, tx).Pass? <==>
      && tx.expiresAt > tip + slack
      && tx.authHeight + |core.blocks| >= tip
      && StartsRight(core.All(), tx)
      && Spendable(core, tx) && Creatable(core, tx) && Sourced(core, tx)
  {
    StartsExactly(core, tx);
    NotesExactly(core, tx);
    hide StartsRight, Spendable, Creatable, Sourced, On, Core.All, Core.CurrentState;
    hide Nullifiers, Outputs;
  }

  lemma NotesExactly(core: Core, tx: Tx)
    ensures Spendable(core, tx) <==> Elems(tx.nullifiers) * Nullifiers(core.All()) == {}
    ensures Creatable(core, tx) <==> Elems(tx.outputs) * Outputs(core.All()) == {}
    ensures Sourced(core, tx) <==> tx.unauthenticated - Outputs(core.All()) == {}
  {
    IntersectionEmpty(Elems(tx.nullifiers), Nullifiers(core.All()));
    IntersectionEmpty(Elems(tx.outputs), Outputs(core.All()));
    DifferenceEmpty(tx.unauthenticated, Outputs(core.All()));
    forall n, t | n in tx.nullifiers && t in core.All() && n in t.nullifiers
      ensures n in Elems(tx.nullifiers) * Nullifiers(core.All())
    {
    }
    forall n, t | n in tx.outputs && t in core.All() && n in t.outputs
      ensures n in Elems(tx.outputs) * Outputs(core.All())
    {
    }
    if Sourced(core, tx) {
      forall n | n in tx.unauthenticated ensures n in Outputs(core.All()) {
        var t :| t in core.All() && n in t.outputs;
      }
    }
  }

  /** A transaction that does not pass is told of the first of these that fails, in this order, and
      what is wrong with it. */
  lemma {:induction false} RejectedExactly(core: Core, tip: nat, slack: nat, tx: Tx)
    requires |core.blocks| <= tip && core.Verify(tip, slack, tx).Fail?
    ensures match core.Verify(tip, slack, tx).error
      case Expired(at, limit) => at == tx.expiresAt <= limit == tip + slack
      case StaleInputs(block, limit) =>
        && tx.expiresAt > tip + slack
        && block == tx.authHeight < limit == tip - |core.blocks|
      case IncorrectAccountInitialCommitment(expected, current) =>
        && tx.expiresAt > tip + slack && tx.authHeight + |core.blocks| >= tip
        && !StartsRight(core.All(), tx) && expected == tx.initial
        && StartsRight(core.All(), tx.(initial := if current.Some? then current.value else 0))
        && (current.None? <==>
              tx.storeState.None? && forall t :: t in core.All() ==> t.account != tx.account)
      case InputNotesAlreadyConsumed(spent) =>
        && tx.expiresAt > tip + slack && tx.authHeight + |core.blocks| >= tip
        && StartsRight(core.All(), tx) && !Spendable(core, tx)
        && forall n :: n in spent <==>
             n in tx.nullifiers && exists t :: t in core.All() && n in t.nullifiers
      case OutputNotesAlreadyExist(duplicates) =>
        && tx.expiresAt > tip + slack && tx.authHeight + |core.blocks| >= tip
        && StartsRight(core.All(), tx) && Spendable(core, tx) && !Creatable(core, tx)
        && forall n :: n in duplicates <==>
             n in tx.outputs && exists t :: t in core.All() && n in t.outputs
      case UnauthenticatedNotesNotFound(missing) =>
        && tx.expiresAt > tip + slack && tx.authHeight + |core.blocks| >= tip
        && StartsRight(core.All(), tx) && Spendable(core, tx) && Creatable(core, tx)
        && !Sourced(core, tx)
        && forall n :: n in missing <==>
             n in tx.unauthenticated && forall t :: t in core.All() ==> n !in t.outputs
  {
    var current := core.CurrentState(tx);
    StartsExactly(core, tx);
    StartsExactly(core, tx.(initial := if current.Some? then current.value else 0));
    NotesExactly(core, tx);
    NoneOn(core.All(), tx.account);
    hide StartsRight, Spendable, Creatable, Sourced, On, Core.All;
  }

  /** What an accepted transaction with a fresh id satisfies. */
  ghost predicate Admissible(core: Core, tx: Tx) {
    var all := core.All();
    && tx.id !in Ids(all)
    && Elems(tx.nullifiers) !! Nullifiers(all)
    && Elems(tx.outputs) !! Outputs(all)
    && tx.unauthenticated <= Outputs(all)
  }

  /** A transaction that would be accepted is not tracked already. The node does not look at the id
      before it accepts a transaction; ids are derived from contents, and a transaction that is
      tracked fails verification unless it consumes, creates and changes nothing. */
  ghost predicate NewIfValid(core: Core, tip: nat, slack: nat, tx: Tx)
    requires |core.blocks| <= tip
  {
    core.Verify(tip, slack, tx).Pass? ==> tx.id !in Ids(core.All())
  }

  /** Submitting a tracked transaction again is rejected if it has any notes, and otherwise unless
      the account is in the state that the transaction starts from. */
  lemma ResubmissionRejected(core: Core, tip: nat, slack: nat, tx: Tx)
    requires |core.blocks| <= tip && tx in core.All()
    ensures core.Verify(tip, slack, tx).Pass? ==>
      && tx.nullifiers == [] && tx.outputs == []
      && core.CurrentState(tx) == Some(tx.initial)
  {
    var all := core.All();
    forall n | n in tx.nullifiers
      ensures n in Elems(tx.nullifiers) * Nullifiers(all)
    {
    }
    forall n | n in tx.outputs ensures n in Elems(tx.outputs) * Outputs(all) {
    }
    assert tx in On(all, tx.account);
    if tx.nullifiers != [] {
      assert tx.nullifiers[0] in tx.nullifiers;
    }
    if tx.outputs != [] {
      assert tx.outputs[0] in tx.outputs;
    }
  }

  lemma VerifiedIsAdmissible(core: Core, tip: nat, slack: nat, tx: Tx)
    requires |core.blocks| <= tip && core.Verify(tip, slack, tx).Pass?
    requires tx.id !in Ids(core.All())
    ensures Admissible(core, tx)
  {
    IntersectionEmpty(Elems(tx.nullifiers), Nullifiers(core.All()));
    IntersectionEmpty(Elems(tx.outputs), Outputs(core.All()));
    DifferenceEmpty(tx.unauthenticated, Outputs(core.All()));
  }

  lemma AddKeepsConsistent(core: Core, tip: nat, tx: Tx)
    requires core.Consistent(tip) && Admissible(core, tx)
    ensures core.Add(tx).Consistent(tip)
    ensures core.Add(tx).All() == core.All() + [tx]
  {
    var all := core.All();
    assert core.Add(tx).All() == all + [tx];
    assert tx !in all;
    NoDupAppend(all, [tx]);
    forall s | s in all ensures Independent(s, tx) && Independent(tx, s) {
      assert Elems(s.nullifiers) <= Nullifiers(all);
      assert Elems(s.outputs) <= Outputs(all);
    }
    assert forall x :: x in all + [tx] ==> x in all || x == tx;
  }

  lemma RevertKeepsConsistent(core: Core, tip: nat, gone: set<nat>)
    requires core.Consistent(tip)
    ensures core.Revert(gone).Consistent(tip)
  {
    SplitDistinct(core.Past(), core.log, gone);
  }

  lemma PruneKeepsConsistent(core: Core, tip: nat, retain: nat)
    requires core.Consistent(tip)
    ensures core.PruneBlock(retain).Consistent(tip)
  {
    if |core.blocks| > retain {
      FlatTail(core.blocks);
      var rest := core.PruneBlock(retain).All();
      assert core.All() == core.blocks[0] + rest;
      SplitDistinct(core.blocks[0], rest, {});
    }
  }

  lemma {:induction false} FlatPush(blocks: seq<seq<Tx>>, b: seq<Tx>)
    ensures Flat(blocks + [b]) == Flat(blocks) + b
  {
    assert (blocks + [b])[..|blocks|] == blocks;
  }

  lemma CommitKeepsConsistent(core: Core, tip: nat, done: set<nat>, retain: nat)
    requires core.Consistent(tip)
    ensures core.Commit(done, retain).Consistent(tip + 1)
  {
    SplitDistinct(core.Past(), core.log, done);
    FlatPush(core.blocks, Only(core.log, done));
    PruneKeepsConsistent(Core(core.blocks + [Only(core.log, done)], Without(core.log, done)),
                         tip + 1, retain);
  }

  /** A transaction that has just been accepted passes a second time exactly when it has no notes
      of its own and leaves its account in the state it starts from. */
  lemma PassesAgain(core: Core, tip: nat, slack: nat, tx: Tx)
    requires |core.blocks| <= tip && core.Verify(tip, slack, tx).Pass?
    ensures core.Add(tx).Verify(tip, slack, tx).Pass? <==>
            tx.nullifiers == [] && tx.outputs == [] && tx.final == tx.initial
  {
    var all, all' := core.All(), core.Add(tx).All();
    assert all' == all + [tx];
    OnLast(all, tx);
    Members(all, [tx]);
    Single(tx);
    hide On, Nullifiers, Outputs, Ids;
    assert Elems(tx.nullifiers) * (Nullifiers(all) + Elems(tx.nullifiers)) == Elems(tx.nullifiers);
    assert Elems(tx.outputs) * (Outputs(all) + Elems(tx.outputs)) == Elems(tx.outputs);
    assert tx.nullifiers != [] ==> tx.nullifiers[0] in Elems(tx.nullifiers);
    assert tx.outputs != [] ==> tx.outputs[0] in Elems(tx.outputs);
    assert tx.unauthenticated - (Outputs(all) + Elems(tx.outputs)) <=
           tx.unauthenticated - Outputs(all);
  }

  lemma {:induction false} OnLast(txs: seq<Tx>, tx: Tx)
    ensures On(txs + [tx], tx.account) == On(txs, tx.account) + [tx]
  {
    assert (txs + [tx])[..|txs|] == txs;
  }
}
