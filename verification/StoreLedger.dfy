/** Which blocks the store accepts, stated on the list of accepted blocks. */
module StoreLedger {
  import opened Prelude
  import opened Stores

  /** The tables after writing a list of blocks, the first of which is the genesis block. */
  ghost function Replay(ledger: seq<Block>): Option<Database> {
    if ledger == [] then Some(Database([], map[], map[], map[])) else
      var before := Replay(ledger[..|ledger| - 1]);
      if before.None? then None else Write(before.value, ledger[|ledger| - 1])
  }

  function HeadersOf(ledger: seq<Block>): (headers: seq<Header>)
    ensures |headers| == |ledger|
    ensures forall i :: 0 <= i < |ledger| ==> headers[i] == ledger[i].header
  {
    if ledger == [] then [] else
      HeadersOf(ledger[..|ledger| - 1]) + [ledger[|ledger| - 1].header]
  }

  /** The nullifiers of all blocks, in order and with repetitions. */
  function Spent(ledger: seq<Block>): seq<nat> {
    if ledger == [] then [] else
      Spent(ledger[..|ledger| - 1]) + ledger[|ledger| - 1].nullifiers
  }

  ghost predicate Genesis(h: Hashes, g: Block) {
    var db := Write(Database([], map[], map[], map[]), g);
    && g.header.number == 0
    && db.Some?
    && g.header.nullifierRoot == h.nullifiers(db.value.nullifiers)
    && g.header.accountRoot == h.accounts(db.value.accounts)
  }

  /** The block continues the chain, commits to the transactions and notes it holds, and to the
      trees as they are after it. */
  ghost predicate Extends(h: Hashes, ledger: seq<Block>, b: Block)
    requires Replay(ledger).Some? && ledger != []
  {
    var before := Replay(ledger).value;
    var after := Write(before, b);
    && after.Some?
    && Fits(h, ledger, b)
    && b.header.chainRoot == h.chain(Commitments(h, HeadersOf(ledger)))
    && b.header.nullifierRoot == h.nullifiers(after.value.nullifiers)
    && b.header.accountRoot == h.accounts(after.value.accounts)
    && b.header.noteRoot == h.notes(b.notes)
    && !PrefixTaken(h, before.accounts, Upsert(map[], b.accounts))
    && forall n :: n in b.notes ==> !n.partial
  }

  /** What can be seen of that without looking at the trees. */
  ghost predicate Fits(h: Hashes, ledger: seq<Block>, b: Block)
    requires ledger != []
  {
    && b.header.txRoot == h.txs(b.txs)
    && b.header.number == |ledger|
    && b.header.prev == h.header(ledger[|ledger| - 1].header)
  }

  ghost predicate Chained(h: Hashes, ledger: seq<Block>) {
    && ledger != []
    && Replay(ledger).Some?
    && if |ledger| == 1 then Genesis(h, ledger[0])
       else Chained(h, ledger[..|ledger| - 1]) &&
            Extends(h, ledger[..|ledger| - 1], ledger[|ledger| - 1])
  }

  // ---------------------------------------------------------------------------------------------
  // Safety of chained ledgers

  lemma {:induction false} ReplayPush(ledger: seq<Block>, b: Block)
    requires Replay(ledger).Some?
    ensures Replay(ledger + [b]) == Write(Replay(ledger).value, b)
    ensures HeadersOf(ledger + [b]) == HeadersOf(ledger) + [b.header]
    ensures Spent(ledger + [b]) == Spent(ledger) + b.nullifiers
  {
    assert (ledger + [b])[..|ledger|] == ledger;
  }

  lemma {:induction false} ChainedPush(h: Hashes, ledger: seq<Block>, b: Block)
    requires Chained(h, ledger) && Extends(h, ledger, b)
    ensures Chained(h, ledger + [b])
  {
    ReplayPush(ledger, b);
    assert (ledger + [b])[..|ledger|] == ledger;
  }

  lemma {:induction false} InsertLast(headers: seq<Header>, header: Header)
    requires headers == [] || headers[|headers| - 1].number < header.number
    ensures InsertHeader(headers, header) == headers + [header]
  {
  }

  /** The header table lists the blocks of the ledger, numbered from zero. */
  lemma {:induction false} HeaderTable(h: Hashes, ledger: seq<Block>)
    requires Chained(h, ledger)
    ensures Replay(ledger).value.headers == HeadersOf(ledger)
    ensures forall i :: 0 <= i < |ledger| ==> ledger[i].header.number == i
    decreases |ledger|
  {
    hide Commitments, PrefixTaken, Upsert, Elems, Spent;
    var f, b := ledger[..|ledger| - 1], ledger[|ledger| - 1];
    if f == [] {
      assert ledger == [b] && Genesis(h, b);
    } else {
      assert Extends(h, f, b);
      hide Chained, Extends, Genesis;
      HeaderTable(h, f);
      InsertLast(Replay(f).value.headers, b.header);
    }
  }

  /** The nullifier table holds exactly the nullifiers of the blocks, and none was spent twice. */
  lemma {:induction false} NullifierTable(ledger: seq<Block>)
    requires Replay(ledger).Some?
    ensures Replay(ledger).value.nullifiers.Keys == Elems(Spent(ledger))
    ensures NoDup(Spent(ledger))
    decreases |ledger|
  {
    if ledger != [] {
      var f, b := ledger[..|ledger| - 1], ledger[|ledger| - 1];
      NullifierTable(f);
      forall n | n in Spent(f) ensures n !in b.nullifiers {
        assert n in Elems(Spent(f));
      }
      NoDupAppend(Spent(f), b.nullifiers);
      assert Elems(Spent(f) + b.nullifiers) == Elems(Spent(f)) + Elems(b.nullifiers);
    }
  }

  /** The database's replacement of account rows and the tree's mutations agree. */
  lemma {:induction false} UpsertIsMerge(accounts: map<nat, nat>, updates: seq<(nat, nat)>)
    ensures Upsert(accounts, updates) == accounts + Upsert(map[], updates)
    decreases |updates|
  {
    if updates == [] {
      assert accounts + map[] == accounts;
    } else {
      var f, u := updates[..|updates| - 1], updates[|updates| - 1];
      UpsertIsMerge(accounts, f);
      assert accounts + Upsert(map[], f)[u.0 := u.1] == (accounts + Upsert(map[], f))[u.0 := u.1];
    }
  }

  /** In an accepted chain every block points at its predecessor, commits to the chain before it
      and to the trees after it, and no nullifier is spent twice. */
  lemma {:induction false} LedgerSafety(h: Hashes, ledger: seq<Block>)
    requires Chained(h, ledger)
    ensures NoDup(Spent(ledger))
    ensures forall i :: 0 <= i < |ledger| ==> ledger[i].header.number == i
    ensures forall i :: 0 < i < |ledger| ==> Linked(h, ledger, i)
    ensures forall i :: 0 <= i < |ledger| ==> Rooted(h, ledger, i)
  {
    hide Chained, Genesis, Replay, Spent, NoDup, Linked, Rooted, HeadersOf;
    LatestLink(h, ledger);
    HeaderTable(h, ledger);
    NullifierTable(ledger);
    forall i | 0 <= i < |ledger|
      ensures i > 0 ==> Linked(h, ledger, i)
      ensures Rooted(h, ledger, i)
    {
      BlockSafety(h, ledger, i);
    }
  }

  lemma {:induction false} BlockSafety(h: Hashes, ledger: seq<Block>, i: nat)
    requires Chained(h, ledger) && i < |ledger|
    ensures i > 0 ==> Linked(h, ledger, i)
    ensures Rooted(h, ledger, i)
  {
    hide Chained, Genesis, Replay, HeadersOf;
    var prefix := ledger[..i + 1];
    ChainedPrefix(h, ledger, i + 1);
    assert prefix[..i] == ledger[..i];
    LatestRoots(h, prefix);
    LatestLink(h, prefix);
  }

  /** Block `i` points at its predecessor and at the chain before it. */
  ghost predicate Linked(h: Hashes, ledger: seq<Block>, i: nat)
    requires 0 < i < |ledger|
  {
    && ledger[i].header.prev == h.header(ledger[i - 1].header)
    && ledger[i].header.chainRoot == h.chain(Commitments(h, HeadersOf(ledger[..i])))
  }

  /** Block `i` commits to the trees after it. */
  ghost predicate Rooted(h: Hashes, ledger: seq<Block>, i: nat)
    requires i < |ledger|
  {
    var db := Replay(ledger[..i + 1]);
    && db.Some?
    && ledger[i].header.nullifierRoot == h.nullifiers(db.value.nullifiers)
    && ledger[i].header.accountRoot == h.accounts(db.value.accounts)
  }

  lemma {:induction false} ChainedPrefix(h: Hashes, ledger: seq<Block>, n: nat)
    requires Chained(h, ledger) && 0 < n <= |ledger|
    ensures Chained(h, ledger[..n])
    decreases |ledger|
  {
    hide Extends;
    if n < |ledger| {
      ChainedPrefix(h, ledger[..|ledger| - 1], n);
      assert ledger[..|ledger| - 1][..n] == ledger[..n];
    } else {
      assert ledger[..n] == ledger;
    }
  }

  // ---------------------------------------------------------------------------------------------
  // What the checks of `apply_block` amount to

  /** The checks, without their order. */
  predicate Admissible(h: Hashes, db: Database, b: Block) {
    var after, updates := db.nullifiers + SpentAt(b.nullifiers, b.header.number),
                          Upsert(map[], b.accounts);
    && Elems(b.nullifiers) !! db.nullifiers.Keys
    && h.chain(Commitments(h, db.headers)) == b.header.chainRoot
    && h.nullifiers(after) == b.header.nullifierRoot
    && !PrefixTaken(h, db.accounts, updates)
    && h.accounts(db.accounts + updates) == b.header.accountRoot
    && h.notes(b.notes) == b.header.noteRoot
    && forall n :: n in b.notes ==> !n.partial
  }

  lemma PassesExactly(h: Hashes, db: Database, b: Block)
    ensures Validation(h, Load(h, db), b).Pass? <==> Admissible(h, db, b)
  {
    hide Upsert, PrefixTaken, Commitments;
    var spent := set n | n in b.nullifiers && n in db.nullifiers;
    assert spent == Elems(b.nullifiers) * db.nullifiers.Keys;
    IntersectionEmpty(Elems(b.nullifiers), db.nullifiers.Keys);
  }

  /** The checks pass and the write succeeds for exactly the blocks that extend the ledger. */
  lemma {:induction false} ValidationIsExact(h: Hashes, ledger: seq<Block>, b: Block)
    requires Chained(h, ledger)
    ensures var db := Replay(ledger).value;
      Fits(h, ledger, b) && Validation(h, Load(h, db), b).Pass? && Write(db, b).Some?
      <==> Extends(h, ledger, b)
  {
    var db := Replay(ledger).value;
    HeaderTable(h, ledger);
    hide Chained, Replay, HeadersOf, Upsert, PrefixTaken, Commitments, Validation, Load;
    UpsertIsMerge(db.accounts, b.accounts);
    PassesExactly(h, db, b);
  }

  lemma {:induction false} CommitmentsPush(h: Hashes, headers: seq<Header>, header: Header)
    ensures Commitments(h, headers + [header]) == Commitments(h, headers) + [h.header(header)]
  {
    assert (headers + [header])[..|headers|] == headers;
  }

  /** The mutations computed for the trees make memory what a reload would build. */
  lemma {:induction false} MutationsFollowTables(h: Hashes, ledger: seq<Block>, b: Block)
    requires Chained(h, ledger) && Extends(h, ledger, b)
    ensures var m := Load(h, Replay(ledger).value);
      var u := UpdateFor(h, m, b);
      Load(h, Replay(ledger + [b]).value) ==
      Memory(m.nullifiers + u.nullifiers, m.chain + [h.header(b.header)], m.accounts + u.accounts)
  {
    ReplayPush(ledger, b);
    ChainedPush(h, ledger, b);
    HeaderTable(h, ledger);
    HeaderTable(h, ledger + [b]);
    hide Chained, Extends, Replay, HeadersOf, Elems;
    var db := Replay(ledger).value;
    UpsertIsMerge(db.accounts, b.accounts);
    CommitmentsPush(h, db.headers, b.header);
  }

  // ---------------------------------------------------------------------------------------------
  // Building blocks that are accepted

  function Creating(b: Block): Database {
    Database([b.header], SpentAt(b.nullifiers, b.header.number),
             Upsert(map[], b.accounts), CreatedAt(b.notes, b.header.number))
  }

  /** A header sealed over the trees after its block makes a genesis block. */
  lemma {:induction false} SealedGenesis(h: Hashes, b: Block)
    requires b.header.number == 0 && NoDup(b.nullifiers)
    requires b.header.nullifierRoot == h.nullifiers(Creating(b).nullifiers)
    requires b.header.accountRoot == h.accounts(Creating(b).accounts)
    ensures Genesis(h, b) && Chained(h, [b])
  {
    var empty := Database([], map[], map[], map[]);
    var created := Creating(b);
    assert InsertHeader([], b.header) == [b.header];
    assert map[] + created.nullifiers == created.nullifiers;
    assert map[] + created.notes == created.notes;
    assert Write(empty, b) == Some(created);
    assert [b][..0] == [] && Replay([]) == Some(empty);
  }

  /** A header sealed over a chain and over new contents. */
  function Sealed(h: Hashes, ledger: seq<Block>, db: Database, txs: seq<nat>, ns: seq<nat>,
                  accounts: seq<(nat, nat)>, notes: seq<Note>): Block
    requires ledger != []
  {
    Block(Header(|ledger|, h.header(ledger[|ledger| - 1].header),
                 h.chain(Commitments(h, HeadersOf(ledger))),
                 h.nullifiers(db.nullifiers + SpentAt(ns, |ledger|)),
                 h.accounts(Upsert(db.accounts, accounts)), h.notes(notes), h.txs(txs), 0),
          txs, ns, accounts, notes)
  }

  /** A block sealed over unspent nullifiers, accounts whose prefixes are free and full notes
      extends the chain. */
  lemma {:induction false} SealedExtends(h: Hashes, ledger: seq<Block>, txs: seq<nat>,
                                         ns: seq<nat>, accounts: seq<(nat, nat)>,
                                         notes: seq<Note>)
    requires Chained(h, ledger)
    requires var db := Replay(ledger).value;
      && NoDup(ns) && Elems(ns) !! db.nullifiers.Keys
      && !PrefixTaken(h, db.accounts, Upsert(map[], accounts))
      && forall n :: n in notes ==> !n.partial
    ensures Extends(h, ledger, Sealed(h, ledger, Replay(ledger).value, txs, ns, accounts, notes))
  {
    var db := Replay(ledger).value;
    NumbersTaken(h, ledger);
    hide Chained, Replay, Commitments, Upsert, PrefixTaken, Write, HeadersOf;
    var b := Sealed(h, ledger, db, txs, ns, accounts, notes);
    SealedWrites(db, b, ns, |ledger|);
  }

  lemma {:induction false} NumbersTaken(h: Hashes, ledger: seq<Block>)
    requires Chained(h, ledger)
    ensures Replay(ledger).Some?
    ensures forall x :: x in Replay(ledger).value.headers ==> x.number < |ledger|
  {
    HeaderTable(h, ledger);
    hide Replay;
    forall x | x in HeadersOf(ledger) ensures x.number < |ledger| {
      var i :| 0 <= i < |HeadersOf(ledger)| && HeadersOf(ledger)[i] == x;
      assert x == ledger[i].header;
    }
  }

  lemma SealedWrites(db: Database, b: Block, ns: seq<nat>, number: nat)
    requires b.nullifiers == ns && b.header.number == number
    requires forall x :: x in db.headers ==> x.number < number
    requires NoDup(ns) && Elems(ns) !! db.nullifiers.Keys
    ensures Write(db, b).Some?
    ensures Write(db, b).value.nullifiers == db.nullifiers + SpentAt(ns, number)
    ensures Write(db, b).value.accounts == Upsert(db.accounts, b.accounts)
  {
  }

  // ---------------------------------------------------------------------------------------------
  // The tip commitment determines everything the headers commit to.

  ghost predicate Binding(h: Hashes) {
    && (forall a: Header, b: Header :: h.header(a) == h.header(b) ==> a == b)
    && (forall a: map<nat, nat>, b: map<nat, nat> :: h.nullifiers(a) == h.nullifiers(b) ==> a == b)
    && (forall a: map<nat, nat>, b: map<nat, nat> :: h.accounts(a) == h.accounts(b) ==> a == b)
  }

  /** Two stores whose latest headers have the same commitment have the same headers and would
      load the same memory. */
  lemma {:induction false} TipDeterminesMemory(h: Hashes, l: seq<Block>, l': seq<Block>)
    requires Binding(h) && Chained(h, l) && Chained(h, l')
    requires h.header(l[|l| - 1].header) == h.header(l'[|l'| - 1].header)
    ensures HeadersOf(l) == HeadersOf(l')
    ensures Load(h, Replay(l).value) == Load(h, Replay(l').value)
    decreases |l|
  {
    HeaderTable(h, l);
    HeaderTable(h, l');
    assert |l| == |l'|;
    SameHeaders(h, l, l');
    LatestRoots(h, l);
    LatestRoots(h, l');
  }

  lemma {:induction false} SameHeaders(h: Hashes, l: seq<Block>, l': seq<Block>)
    requires Binding(h) && Chained(h, l) && Chained(h, l') && |l| == |l'|
    requires l[|l| - 1].header == l'[|l'| - 1].header
    ensures HeadersOf(l) == HeadersOf(l')
    decreases |l|
  {
    hide Chained;
    LatestLink(h, l);
    LatestLink(h, l');
    if |l| > 1 {
      SameHeaders(h, l[..|l| - 1], l'[..|l'| - 1]);
    }
  }

  lemma {:induction false} LatestLink(h: Hashes, l: seq<Block>)
    requires Chained(h, l)
    ensures l != [] && HeadersOf(l) == HeadersOf(l[..|l| - 1]) + [l[|l| - 1].header]
    ensures Replay(l).Some?
    ensures |l| > 1 ==>
      && Chained(h, l[..|l| - 1])
      && l[|l| - 1].header.prev == h.header(l[..|l| - 1][|l| - 2].header)
      && l[|l| - 1].header.chainRoot == h.chain(Commitments(h, HeadersOf(l[..|l| - 1])))
  {
    hide Write, Commitments, Upsert, PrefixTaken, Replay;
    if |l| > 1 {
      assert Extends(h, l[..|l| - 1], l[|l| - 1]);
    }
  }

  /** The latest header commits to the trees that a reload would build. */
  lemma {:induction false} LatestRoots(h: Hashes, ledger: seq<Block>)
    requires Chained(h, ledger)
    ensures var latest, m := ledger[|ledger| - 1].header, Load(h, Replay(ledger).value);
      latest.nullifierRoot == h.nullifiers(m.nullifiers) &&
      latest.accountRoot == h.accounts(m.accounts)
  {
    var f, b := ledger[..|ledger| - 1], ledger[|ledger| - 1];
    assert ledger == f + [b];
    ReplayPush(f, b);
  }
}
