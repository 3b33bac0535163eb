/** What the tables hold for a list of accepted blocks, and which block is accepted next, in terms
    of the blocks alone. */
module StoreTables {
  import opened Prelude
  import opened Stores
  import opened StoreLedger

  /** Every nullifier is recorded under the block that spent it. */
  ghost predicate NullifiersOf(ledger: seq<Block>, m: map<nat, nat>) {
    && (forall i, n :: 0 <= i < |ledger| && n in ledger[i].nullifiers ==> n in m && m[n] == i)
    && (forall n :: n in m ==> m[n] < |ledger| && n in ledger[m[n]].nullifiers)
  }

  /** Update `k` of block `i` is the last one that names account `a`. */
  predicate LastUpdate(ledger: seq<Block>, i: nat, k: nat, a: nat) {
    && i < |ledger| && k < |ledger[i].accounts| && ledger[i].accounts[k].0 == a
    && (forall m :: k < m < |ledger[i].accounts| ==> ledger[i].accounts[m].0 != a)
    && (forall j :: i < j < |ledger| ==> !Updates(ledger[j], a))
  }

  predicate Updates(b: Block, a: nat) {
    exists k :: 0 <= k < |b.accounts| && b.accounts[k].0 == a
  }

  /** Every account has the commitment of its last update. */
  ghost predicate AccountsOf(ledger: seq<Block>, m: map<nat, nat>) {
    && (forall a :: a in m ==> exists i: nat, k: nat :: LastUpdate(ledger, i, k, a))
    && (forall i: nat, k: nat, a: nat :: LastUpdate(ledger, i, k, a) ==>
          a in m && m[a] == ledger[i].accounts[k].1)
  }

  predicate Creates(b: Block, n: nat) {
    exists k :: 0 <= k < |b.notes| && b.notes[k].id == n
  }

  /** Block `i` is the last one that creates note `n`. */
  predicate LastCreates(ledger: seq<Block>, i: nat, n: nat) {
    && i < |ledger| && Creates(ledger[i], n)
    && (forall j :: i < j < |ledger| ==> !Creates(ledger[j], n))
  }

  /** Every note is recorded under the last block that creates it. */
  ghost predicate NotesOf(ledger: seq<Block>, m: map<nat, nat>) {
    && (forall n :: n in m ==> LastCreates(ledger, m[n], n))
    && (forall i: nat, n: nat :: LastCreates(ledger, i, n) ==> n in m && m[n] == i)
  }

  lemma LastWrite(ledger: seq<Block>)
    requires ledger != [] && Replay(ledger).Some?
    ensures var f, b := ledger[..|ledger| - 1], ledger[|ledger| - 1];
      && f + [b] == ledger && Replay(f).Some?
      && var db, db' := Replay(f).value, Replay(ledger).value;
      && Elems(b.nullifiers) !! db.nullifiers.Keys
      && db'.nullifiers == db.nullifiers + SpentAt(b.nullifiers, b.header.number)
      && db'.accounts == Upsert(db.accounts, b.accounts)
      && db'.notes == db.notes + CreatedAt(b.notes, b.header.number)
  {
    hide Upsert, InsertHeader, SpentAt, CreatedAt;
  }

  // ---------------------------------------------------------------------------------------------
  // The nullifier table

  lemma {:induction false} NullifierRows(ledger: seq<Block>)
    requires Replay(ledger).Some?
    requires forall i :: 0 <= i < |ledger| ==> ledger[i].header.number == i
    ensures NullifiersOf(ledger, Replay(ledger).value.nullifiers)
    decreases |ledger|
  {
    if ledger != [] {
      LastWrite(ledger);
      hide NullifiersOf, Replay, Write;
      var f, b := ledger[..|ledger| - 1], ledger[|ledger| - 1];
      NullifierRows(f);
      NullifiersPush(f, b, Replay(f).value.nullifiers, Replay(ledger).value.nullifiers);
    }
  }

  lemma NullifiersPush(f: seq<Block>, b: Block, m: map<nat, nat>, m': map<nat, nat>)
    requires NullifiersOf(f, m) && m' == m + SpentAt(b.nullifiers, |f|)
    requires Elems(b.nullifiers) !! m.Keys
    ensures NullifiersOf(f + [b], m')
  {
    var ledger := f + [b];
    forall i, n | 0 <= i < |ledger| && n in ledger[i].nullifiers
      ensures n in m' && m'[n] == i
    {
      if i < |f| {
        assert n in f[i].nullifiers;
      } else {
        assert n in Elems(b.nullifiers);
      }
    }
  }

  lemma NullifiersUnique(ledger: seq<Block>, m: map<nat, nat>, m': map<nat, nat>)
    requires NullifiersOf(ledger, m) && NullifiersOf(ledger, m')
    ensures m == m'
  {
    assert forall n :: n in m ==> n in ledger[m[n]].nullifiers;
  }

  // ---------------------------------------------------------------------------------------------
  // The account table

  predicate LastOf(updates: seq<(nat, nat)>, k: nat, a: nat) {
    && k < |updates| && updates[k].0 == a
    && (forall m :: k < m < |updates| ==> updates[m].0 != a)
  }

  lemma {:induction false} UpsertRow(accounts: map<nat, nat>, updates: seq<(nat, nat)>, a: nat)
    ensures (exists k: nat :: LastOf(updates, k, a)) <==>
            (exists k :: 0 <= k < |updates| && updates[k].0 == a)
    ensures forall k: nat :: LastOf(updates, k, a) ==>
      a in Upsert(accounts, updates) && Upsert(accounts, updates)[a] == updates[k].1
    ensures (forall k: nat :: !LastOf(updates, k, a)) ==>
      (a in Upsert(accounts, updates) <==> a in accounts) &&
      (a in accounts ==> Upsert(accounts, updates)[a] == accounts[a])
    decreases |updates|
  {
    if updates != [] {
      var f, last := updates[..|updates| - 1], |updates| - 1;
      UpsertRow(accounts, f, a);
      if updates[last].0 == a {
        assert LastOf(updates, last, a);
      } else {
        assert forall k: nat :: LastOf(f, k, a) <==> LastOf(updates, k, a);
      }
    }
  }

  lemma {:induction false} AccountRows(ledger: seq<Block>)
    requires Replay(ledger).Some?
    ensures AccountsOf(ledger, Replay(ledger).value.accounts)
    decreases |ledger|
  {
    if ledger != [] {
      LastWrite(ledger);
      hide AccountsOf, Replay, Write;
      var f, b := ledger[..|ledger| - 1], ledger[|ledger| - 1];
      AccountRows(f);
      AccountsPush(f, b, Replay(f).value.accounts);
    }
  }

  lemma {:induction false} AccountsPush(f: seq<Block>, b: Block, m: map<nat, nat>)
    requires AccountsOf(f, m)
    ensures AccountsOf(f + [b], Upsert(m, b.accounts))
  {
    var ledger, m' := f + [b], Upsert(m, b.accounts);
    forall a | a in m' ensures exists i: nat, k: nat :: LastUpdate(ledger, i, k, a) {
      UpsertRow(m, b.accounts, a);
      if k: nat :| LastOf(b.accounts, k, a) {
        LastUpdatePush(f, b, |f|, k, a);
      } else {
        var i: nat, k: nat :| LastUpdate(f, i, k, a);
        LastUpdatePush(f, b, i, k, a);
      }
    }
    forall i: nat, k: nat, a: nat | LastUpdate(ledger, i, k, a)
      ensures a in m' && m'[a] == ledger[i].accounts[k].1
    {
      UpsertRow(m, b.accounts, a);
      LastUpdatePush(f, b, i, k, a);
    }
  }

  lemma LastUpdatePush(f: seq<Block>, b: Block, i: nat, k: nat, a: nat)
    ensures LastUpdate(f + [b], i, k, a) <==>
            if i < |f| then LastUpdate(f, i, k, a) && !Updates(b, a)
            else i == |f| && LastOf(b.accounts, k, a)
  {
    var ledger := f + [b];
    assert ledger[|f|] == b && forall j :: 0 <= j < |f| ==> ledger[j] == f[j];
  }

  lemma AccountsUnique(ledger: seq<Block>, m: map<nat, nat>, m': map<nat, nat>)
    requires AccountsOf(ledger, m) && AccountsOf(ledger, m')
    ensures m == m'
  {
    forall a | a in m ensures a in m' && m'[a] == m[a] {
      var i: nat, k: nat :| LastUpdate(ledger, i, k, a);
    }
    forall a | a in m' ensures a in m {
      var i: nat, k: nat :| LastUpdate(ledger, i, k, a);
    }
  }

  // ---------------------------------------------------------------------------------------------
  // The note table

  lemma {:induction false} NoteRows(ledger: seq<Block>)
    requires Replay(ledger).Some?
    requires forall i :: 0 <= i < |ledger| ==> ledger[i].header.number == i
    ensures NotesOf(ledger, Replay(ledger).value.notes)
    decreases |ledger|
  {
    if ledger != [] {
      LastWrite(ledger);
      hide NotesOf, Replay, Write;
      var f, b := ledger[..|ledger| - 1], ledger[|ledger| - 1];
      NoteRows(f);
      NotesPush(f, b, Replay(f).value.notes, Replay(ledger).value.notes);
    }
  }

  lemma NotesPush(f: seq<Block>, b: Block, m: map<nat, nat>, m': map<nat, nat>)
    requires NotesOf(f, m) && m' == m + CreatedAt(b.notes, |f|)
    ensures NotesOf(f + [b], m')
  {
    forall n: nat ensures n in NoteIds(b.notes) <==> Creates(b, n) {
      if Creates(b, n) {
        var k :| 0 <= k < |b.notes| && b.notes[k].id == n;
        assert b.notes[k] in b.notes;
      }
    }
    forall n | n in m' ensures LastCreates(f + [b], m'[n], n) {
      LastCreatesPush(f, b, m'[n], n);
    }
    forall i: nat, n: nat | LastCreates(f + [b], i, n) ensures n in m' && m'[n] == i {
      LastCreatesPush(f, b, i, n);
    }
  }

  lemma LastCreatesPush(f: seq<Block>, b: Block, i: nat, n: nat)
    ensures LastCreates(f + [b], i, n) <==>
            if i < |f| then LastCreates(f, i, n) && !Creates(b, n) else i == |f| && Creates(b, n)
  {
    var ledger := f + [b];
    assert ledger[|f|] == b && forall j :: 0 <= j < |f| ==> ledger[j] == f[j];
  }

  /** What the database and the trees hold. */
  lemma {:induction false} TableRows(h: Hashes, ledger: seq<Block>)
    requires Chained(h, ledger)
    ensures Replay(ledger).Some?
    ensures NullifiersOf(ledger, Replay(ledger).value.nullifiers)
    ensures AccountsOf(ledger, Replay(ledger).value.accounts)
    ensures NotesOf(ledger, Replay(ledger).value.notes)
  {
    HeaderTable(h, ledger);
    NullifierRows(ledger);
    AccountRows(ledger);
    NoteRows(ledger);
  }

  // ---------------------------------------------------------------------------------------------
  // Which block is accepted

  predicate SpentBefore(ledger: seq<Block>, n: nat) {
    exists i :: 0 <= i < |ledger| && n in ledger[i].nullifiers
  }

  predicate Unspent(ledger: seq<Block>, b: Block) {
    forall n :: n in b.nullifiers ==> !SpentBefore(ledger, n)
  }

  function SpentAgain(ledger: seq<Block>, b: Block): set<nat> {
    set n | n in b.nullifiers && SpentBefore(ledger, n)
  }

  predicate ChainOf(h: Hashes, ledger: seq<Block>, chain: seq<nat>) {
    |chain| == |ledger| && forall i :: 0 <= i < |chain| ==> chain[i] == h.header(ledger[i].header)
  }

  ghost predicate CommitsToChain(h: Hashes, ledger: seq<Block>, b: Block) {
    exists chain :: ChainOf(h, ledger, chain) && b.header.chainRoot == h.chain(chain)
  }

  ghost predicate CommitsToNullifiers(h: Hashes, ledger: seq<Block>, b: Block) {
    exists m :: NullifiersOf(ledger + [b], m) && b.header.nullifierRoot == h.nullifiers(m)
  }

  ghost predicate CommitsToAccounts(h: Hashes, ledger: seq<Block>, b: Block) {
    exists m :: AccountsOf(ledger + [b], m) && b.header.accountRoot == h.accounts(m)
  }

  predicate Named(ledger: seq<Block>, a: nat) {
    exists i :: 0 <= i < |ledger| && Updates(ledger[i], a)
  }

  /** No account the block updates shares its prefix with another account. */
  ghost predicate PrefixesFree(h: Hashes, ledger: seq<Block>, b: Block) {
    forall a, a' :: Updates(b, a) && (Updates(b, a') || Named(ledger, a')) ==>
      (h.prefix(a) == h.prefix(a') ==> a == a')
  }

  predicate NotesFull(b: Block) {
    forall k :: 0 <= k < |b.notes| ==> !b.notes[k].partial
  }

  lemma {:induction false} ChainHolds(h: Hashes, ledger: seq<Block>)
    ensures ChainOf(h, ledger, Commitments(h, HeadersOf(ledger)))
    decreases |ledger|
  {
    if ledger != [] {
      var f, b := ledger[..|ledger| - 1], ledger[|ledger| - 1];
      ChainHolds(h, f);
      CommitmentsPush(h, HeadersOf(f), b.header);
      assert HeadersOf(ledger) == HeadersOf(f) + [b.header];
      hide Commitments, HeadersOf;
      var front := Commitments(h, HeadersOf(f));
      var chain := front + [h.header(b.header)];
      assert forall i :: 0 <= i < |f| ==> chain[i] == front[i] && ledger[i] == f[i];
    }
  }

  lemma ChainUnique(h: Hashes, ledger: seq<Block>, chain: seq<nat>, chain': seq<nat>)
    requires ChainOf(h, ledger, chain) && ChainOf(h, ledger, chain')
    ensures chain == chain'
  {
  }

  lemma {:induction false} CommitsToChainIs(h: Hashes, ledger: seq<Block>, b: Block)
    ensures CommitsToChain(h, ledger, b) <==>
            b.header.chainRoot == h.chain(Commitments(h, HeadersOf(ledger)))
  {
    var c := Commitments(h, HeadersOf(ledger));
    ChainHolds(h, ledger);
    hide Commitments, HeadersOf;
    if CommitsToChain(h, ledger, b) {
      var chain :| ChainOf(h, ledger, chain) && b.header.chainRoot == h.chain(chain);
      ChainUnique(h, ledger, chain, c);
    }
  }

  lemma UnspentIs(ledger: seq<Block>, m: map<nat, nat>, n: nat)
    requires NullifiersOf(ledger, m)
    ensures SpentBefore(ledger, n) <==> n in m
  {
    if n in m {
      assert n in ledger[m[n]].nullifiers;
    }
  }

  lemma CommitsToNullifiersIs(h: Hashes, ledger: seq<Block>, b: Block, m: map<nat, nat>)
    requires NullifiersOf(ledger, m) && Elems(b.nullifiers) !! m.Keys
    ensures CommitsToNullifiers(h, ledger, b) <==>
            b.header.nullifierRoot == h.nullifiers(m + SpentAt(b.nullifiers, |ledger|))
  {
    var after := m + SpentAt(b.nullifiers, |ledger|);
    NullifiersPush(ledger, b, m, after);
    if CommitsToNullifiers(h, ledger, b) {
      var m' :| NullifiersOf(ledger + [b], m') && b.header.nullifierRoot == h.nullifiers(m');
      NullifiersUnique(ledger + [b], after, m');
    }
  }

  lemma {:induction false} CommitsToAccountsIs(h: Hashes, ledger: seq<Block>, b: Block,
                                               m: map<nat, nat>)
    requires AccountsOf(ledger, m)
    ensures CommitsToAccounts(h, ledger, b) <==>
            b.header.accountRoot == h.accounts(Upsert(m, b.accounts))
  {
    var after := Upsert(m, b.accounts);
    AccountsPush(ledger, b, m);
    if CommitsToAccounts(h, ledger, b) {
      var m' :| AccountsOf(ledger + [b], m') && b.header.accountRoot == h.accounts(m');
      AccountsUnique(ledger + [b], after, m');
    }
  }

  lemma {:induction false} UpdatedAccounts(updates: seq<(nat, nat)>, a: nat)
    ensures a in Upsert(map[], updates) <==> exists k :: 0 <= k < |updates| && updates[k].0 == a
    decreases |updates|
  {
    if updates != [] {
      var f := updates[..|updates| - 1];
      UpdatedAccounts(f, a);
      assert updates == f + [updates[|updates| - 1]];
    }
  }

  lemma TrackedAccounts(ledger: seq<Block>, m: map<nat, nat>, a: nat)
    requires AccountsOf(ledger, m)
    ensures a in m <==> Named(ledger, a)
    decreases |ledger|
  {
    if a in m {
      var i: nat, k: nat :| LastUpdate(ledger, i, k, a);
      assert Updates(ledger[i], a);
    } else if i :| 0 <= i < |ledger| && Updates(ledger[i], a) {
      LastUpdateExists(ledger, i, a);
    }
  }

  lemma {:induction false} LastUpdateExists(ledger: seq<Block>, i: nat, a: nat)
    requires i < |ledger| && Updates(ledger[i], a)
    ensures exists j: nat, k: nat :: LastUpdate(ledger, j, k, a)
    decreases |ledger| - i
  {
    if j :| i < j < |ledger| && Updates(ledger[j], a) {
      LastUpdateExists(ledger, j, a);
    } else {
      UpsertRow(map[], ledger[i].accounts, a);
      var k: nat :| LastOf(ledger[i].accounts, k, a);
      assert LastUpdate(ledger, i, k, a);
    }
  }

  lemma PrefixesFreeIs(h: Hashes, ledger: seq<Block>, b: Block, m: map<nat, nat>)
    requires AccountsOf(ledger, m)
    ensures PrefixesFree(h, ledger, b) <==> !PrefixTaken(h, m, Upsert(map[], b.accounts))
  {
    var u := Upsert(map[], b.accounts);
    forall a: nat ensures a in u <==> Updates(b, a) {
      UpdatedAccounts(b.accounts, a);
    }
    forall a: nat ensures a in m <==> Named(ledger, a) {
      TrackedAccounts(ledger, m, a);
    }
    hide Upsert, AccountsOf, Updates, Named;
  }

  lemma {:induction false} NullifierChecks(h: Hashes, ledger: seq<Block>, b: Block)
    requires Chained(h, ledger) && b.header.number == |ledger|
    ensures var db := Replay(ledger).value;
      && (Unspent(ledger, b) <==> Elems(b.nullifiers) !! db.nullifiers.Keys)
      && (Unspent(ledger, b) ==>
           (CommitsToNullifiers(h, ledger, b) <==>
            h.nullifiers(db.nullifiers + SpentAt(b.nullifiers, b.header.number))
              == b.header.nullifierRoot))
  {
    TableRows(h, ledger);
    var m := Replay(ledger).value.nullifiers;
    hide Replay, Chained, CommitsToNullifiers, NullifiersOf;
    forall n | n in b.nullifiers ensures SpentBefore(ledger, n) <==> n in m {
      UnspentIs(ledger, m, n);
    }
    if Elems(b.nullifiers) !! m.Keys {
      CommitsToNullifiersIs(h, ledger, b, m);
    }
  }

  lemma {:induction false} AccountChecks(h: Hashes, ledger: seq<Block>, b: Block)
    requires Chained(h, ledger)
    ensures var db, u := Replay(ledger).value, Upsert(map[], b.accounts);
      && (PrefixesFree(h, ledger, b) <==> !PrefixTaken(h, db.accounts, u))
      && (CommitsToAccounts(h, ledger, b) <==> h.accounts(db.accounts + u) == b.header.accountRoot)
  {
    TableRows(h, ledger);
    var m := Replay(ledger).value.accounts;
    hide Replay, Chained, CommitsToAccounts, AccountsOf, PrefixesFree, PrefixTaken, Upsert;
    PrefixesFreeIs(h, ledger, b, m);
    CommitsToAccountsIs(h, ledger, b, m);
    UpsertIsMerge(m, b.accounts);
  }

  /** What is wrong with a block: the first of these in order. */
  ghost function Fault(h: Hashes, ledger: seq<Block>, b: Block): Outcome<ApplyError> {
    if !Unspent(ledger, b) then
      Fail(DuplicatedNullifiers(SpentAgain(ledger, b)))
    else if !CommitsToChain(h, ledger, b) then Fail(InvalidChainCommitment)
    else if !CommitsToNullifiers(h, ledger, b) then Fail(InvalidNullifierRoot)
    else if !PrefixesFree(h, ledger, b) then Fail(DuplicateAccountIdPrefix)
    else if !CommitsToAccounts(h, ledger, b) then Fail(InvalidAccountRoot)
    else if b.header.noteRoot != h.notes(b.notes) then Fail(InvalidNoteRoot)
    else if !NotesFull(b) then Fail(InvalidNoteType)
    else Pass
  }

  lemma SpentOnes(ledger: seq<Block>, m: map<nat, nat>, b: Block)
    requires NullifiersOf(ledger, m)
    ensures SpentAgain(ledger, b) == set n | n in b.nullifiers && n in m
    ensures Unspent(ledger, b) <==> (set n | n in b.nullifiers && n in m) == {}
  {
    forall n | n in b.nullifiers ensures SpentBefore(ledger, n) <==> n in m {
      UnspentIs(ledger, m, n);
    }
    var spent := set n | n in b.nullifiers && n in m;
    if spent == {} {
      forall n | n in b.nullifiers ensures !SpentBefore(ledger, n) {
        assert n !in spent;
      }
    }
  }

  lemma SameVerdict(h: Hashes, ledger: seq<Block>, b: Block, m: Memory)
    requires var spent := set n | n in b.nullifiers && n in m.nullifiers;
      && spent == SpentAgain(ledger, b)
      && (Unspent(ledger, b) <==> spent == {})
    requires CommitsToChain(h, ledger, b) <==> b.header.chainRoot == h.chain(m.chain)
    requires Unspent(ledger, b) ==>
      (CommitsToNullifiers(h, ledger, b) <==>
       h.nullifiers(m.nullifiers + SpentAt(b.nullifiers, b.header.number))
         == b.header.nullifierRoot)
    requires var u := Upsert(map[], b.accounts);
      && (PrefixesFree(h, ledger, b) <==> !PrefixTaken(h, m.accounts, u))
      && (CommitsToAccounts(h, ledger, b) <==> h.accounts(m.accounts + u) == b.header.accountRoot)
    ensures Validation(h, m, b) == Fault(h, ledger, b)
  {
    hide CommitsToAccounts, CommitsToNullifiers, CommitsToChain, PrefixesFree;
    hide PrefixTaken, Upsert, Unspent, SpentBefore, SpentAt, SpentAgain;
    var spent := set n | n in b.nullifiers && n in m.nullifiers;
    if spent != {} {
      assert Validation(h, m, b) == Fail(DuplicatedNullifiers(spent));
      assert spent == SpentAgain(ledger, b);
    }
    assert NotesFull(b) <==> forall n :: n in b.notes ==> !n.partial by {
      if NotesFull(b) {
        forall n | n in b.notes ensures !n.partial {
          var k :| 0 <= k < |b.notes| && b.notes[k] == n;
        }
      }
    }
  }

  /** The checks made against memory report exactly what is wrong with a block, in terms of the
      blocks accepted so far. */
  lemma {:induction false} ChecksAreExact(h: Hashes, ledger: seq<Block>, b: Block)
    requires Chained(h, ledger) && b.header.number == |ledger|
    ensures Validation(h, Load(h, Replay(ledger).value), b) == Fault(h, ledger, b)
  {
    TableRows(h, ledger);
    HeaderTable(h, ledger);
    NullifierChecks(h, ledger, b);
    hide Replay, Chained, CommitsToAccounts, CommitsToNullifiers, CommitsToChain, PrefixesFree;
    hide PrefixTaken, Upsert, Commitments, Unspent, NullifiersOf, AccountsOf, NotesOf, SpentBefore;
    hide HeadersOf, Elems, SpentAt, Validation, Fault, SpentAgain;
    CommitsToChainIs(h, ledger, b);
    AccountChecks(h, ledger, b);
    SpentOnes(ledger, Replay(ledger).value.nullifiers, b);
    SameVerdict(h, ledger, b, Load(h, Replay(ledger).value));
  }

  /** A block is accepted exactly if it continues the chain, nothing is wrong with it and it lists
      no nullifier twice. */
  lemma {:induction false} ExtendsExactly(h: Hashes, ledger: seq<Block>, b: Block)
    requires Chained(h, ledger)
    ensures Extends(h, ledger, b) <==>
      && b.header.txRoot == h.txs(b.txs)
      && b.header.number == |ledger|
      && b.header.prev == h.header(ledger[|ledger| - 1].header)
      && Fault(h, ledger, b).Pass?
      && NoDup(b.nullifiers)
  {
    ValidationIsExact(h, ledger, b);
    if b.header.number == |ledger| {
      ChecksAreExact(h, ledger, b);
      if Unspent(ledger, b) && NoDup(b.nullifiers) {
        NullifierChecks(h, ledger, b);
        NumbersTaken(h, ledger);
        hide Replay, Fault, Validation, Chained, Unspent, Extends;
        SealedWrites(Replay(ledger).value, b, b.nullifiers, |ledger|);
      }
    }
    hide Replay, Validation, Chained, Unspent, Extends, NoDup;
    hide CommitsToAccounts, CommitsToNullifiers, CommitsToChain, PrefixesFree, Load;
  }

  ghost predicate DistinctPrefixes(h: Hashes, ledger: seq<Block>) {
    forall a, a' :: Named(ledger, a) && Named(ledger, a') && h.prefix(a) == h.prefix(a') ==> a == a'
  }

  lemma NamedPush(f: seq<Block>, b: Block, a: nat)
    ensures Named(f + [b], a) <==> Named(f, a) || Updates(b, a)
  {
    var ledger := f + [b];
    assert ledger[|f|] == b && forall i :: 0 <= i < |f| ==> ledger[i] == f[i];
  }

  /** No two accounts of the chain share a prefix, if no two of the genesis block do. */
  lemma {:induction false} PrefixesStayDistinct(h: Hashes, ledger: seq<Block>)
    requires Chained(h, ledger) && DistinctPrefixes(h, ledger[..1])
    ensures DistinctPrefixes(h, ledger)
    decreases |ledger|
  {
    assert ledger != [];
    hide Chained, PrefixesFree, DistinctPrefixes;
    if |ledger| == 1 {
      assert ledger[..1] == ledger;
    } else {
      var f, b := ledger[..|ledger| - 1], ledger[|ledger| - 1];
      assert f[..1] == ledger[..1] && f + [b] == ledger;
      ExtendedFreely(h, ledger);
      PrefixesStayDistinct(h, f);
      DistinctPush(h, f, b);
    }
  }

  lemma ExtendedFreely(h: Hashes, ledger: seq<Block>)
    requires Chained(h, ledger) && |ledger| > 1
    ensures var f, b := ledger[..|ledger| - 1], ledger[|ledger| - 1];
      Chained(h, f) && PrefixesFree(h, f, b)
  {
    hide PrefixesFree, Extends, Unspent, CommitsToChain, CommitsToNullifiers, Replay;
    ExtendsExactly(h, ledger[..|ledger| - 1], ledger[|ledger| - 1]);
  }

  lemma DistinctPush(h: Hashes, f: seq<Block>, b: Block)
    requires DistinctPrefixes(h, f) && PrefixesFree(h, f, b)
    ensures DistinctPrefixes(h, f + [b])
  {
    forall a: nat ensures Named(f + [b], a) <==> Named(f, a) || Updates(b, a) {
      NamedPush(f, b, a);
    }
    hide Named, Updates;
  }
}
