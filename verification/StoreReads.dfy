/** Reads that take data from the database, then from memory, then from the database again, while
    blocks keep arriving: the inputs for batches and blocks. */
module StoreReads {
  import opened Prelude
  import opened Stores
  import opened StoreLedger
  import opened StoreTables
  import opened StoreProtocol
  import opened StoreRuns

  /** A partial chain: the commitments of the first blocks, and those blocks that can be proved. */
  datatype Partial = Partial(chain: seq<nat>, tracked: set<nat>)

  datatype ReadError = NoReferences | UnknownReference(highest: nat, latest: nat)

  /** The result of a read: the reference header, the headers of the tracked blocks, the partial
      chain, and the trees its witnesses were opened in. */
  datatype Inputs = Inputs(latest: Header, headers: set<Header>, partial: Partial, trees: Memory)

  function NoteBlocks(db: Database, notes: set<nat>): set<nat> {
    set n | n in notes && n in db.notes :: db.notes[n]
  }

  function Max(s: set<nat>): (m: nat)
    requires s != {}
    ensures m in s && forall x :: x in s ==> x <= m
  {
    var x := Min(s);
    var rest := s - {x};
    if rest == {} then
      assert s == {x};
      x
    else
      var m := Max(rest);
      assert forall y :: y in s ==> y == x || y in rest;
      m
  }

  /** The part under the read lock: the latest block, and a partial chain for the other blocks that
      must be proved. `None` is an `expect` that fires: an empty chain, or a block out of range. */
  function Capture(m: Memory, blocks: set<nat>): Option<Result<(nat, Partial), ReadError>> {
    if m.chain == [] then None else
      var latest := |m.chain| - 1;
      var highest := if blocks == {} then latest else Max(blocks);
      if highest > latest then Some(Err(UnknownReference(highest, latest))) else
        var others := blocks - {latest};
        if exists b :: b in others && b >= latest then None
        else Some(Ok((latest, Partial(m.chain[..latest], others))))
  }

  function Row(headers: seq<Header>, n: nat): Option<Header> {
    if headers == [] then None
    else if headers[0].number == n then Some(headers[0])
    else Row(headers[1..], n)
  }

  /** The headers are fetched after the lock was released. `None` is an `expect` that fires: the
      reference header is missing, or a header does not belong to the partial chain. */
  function Fetch(db: Database, latest: nat, partial: Partial, trees: Memory): Option<Inputs> {
    var reference := Row(db.headers, latest);
    var headers := set x | x in db.headers && x.number in partial.tracked;
    if reference.None? then None
    else if exists x :: x in headers && x.number >= |partial.chain| then None
    else Some(Inputs(reference.value, headers, partial, trees))
  }

  /** `get_block_inputs`: three reads, from the database in `s1`, from memory in `s2`, and from the
      database in `s3`. */
  function GetBlockInputs(s1: Store, s2: Store, s3: Store, references: set<nat>, notes: set<nat>)
      : Option<Result<Inputs, ReadError>>
  {
    var captured := Capture(s2.memory, references + NoteBlocks(s1.db, notes));
    if captured.None? then None
    else if captured.value.Err? then Some(Err(captured.value.error))
    else
      var (latest, partial) := captured.value.value;
      var inputs := Fetch(s3.db, latest, partial, s2.memory);
      if inputs.None? then None else Some(Ok(inputs.value))
  }

  /** `get_batch_inputs` insists on at least one reference block. */
  function GetBatchInputs(s1: Store, s2: Store, s3: Store, references: set<nat>, notes: set<nat>)
      : Option<Result<Inputs, ReadError>>
  {
    if references == {} then Some(Err(NoReferences))
    else GetBlockInputs(s1, s2, s3, references, notes)
  }

  // ---------------------------------------------------------------------------------------------
  // The committed blocks only grow.

  function CommittedBlocks(genesis: Block, s: Store): seq<Block> {
    Ledger(genesis, s.answers) + Ahead(s)
  }

  lemma StepGrows(h: Hashes, genesis: Block, s: Store, a: Action)
    requires Inv(h, genesis, s) && Safe(s, a)
    ensures Next(h, s, a).Some?
    ensures CommittedBlocks(genesis, s) <= CommittedBlocks(genesis, Next(h, s, a).value)
  {
    assert Enabled(s, a);
    hide Inv, Next, Safe, Enabled;
    StepInv(h, genesis, s, a);
    var s' := Next(h, s, a).value;
    if Ahead(s) == [] {
      AnswersGrow(h, s, a);
      LedgerGrows(genesis, s.answers, s'.answers);
    } else {
      hide Ahead;
      if a.Finish? {
        AheadIsApplied(h, genesis, s, a);
      } else {
        AheadStays(h, genesis, s, a);
      }
    }
  }

  lemma AheadIsApplied(h: Hashes, genesis: Block, s: Store, a: Action)
    requires Safe(s, a) && a.Finish? && Ahead(s) != [] && Next(h, s, a).Some?
    ensures Ledger(genesis, Next(h, s, a).value.answers) ==
            Ledger(genesis, s.answers) + Ahead(s)
  {
    AnswerPush(genesis, s.answers, Answer(s.writer.value.block, None));
    hide Write, Validation;
  }

  lemma AnswersGrow(h: Hashes, s: Store, a: Action)
    requires Safe(s, a) && Next(h, s, a).Some?
    ensures var s' := Next(h, s, a).value;
      s.answers <= s'.answers && |s'.answers| <= |s.answers| + 1
  {
    hide Write, Validation;
  }

  lemma LedgerGrows(genesis: Block, answers: seq<Answer>, answers': seq<Answer>)
    requires answers <= answers' && |answers'| <= |answers| + 1
    ensures Ledger(genesis, answers) <= Ledger(genesis, answers')
  {
    if answers' != answers {
      var last := answers'[|answers|];
      assert answers' == answers + [last];
      AnswerPush(genesis, answers, last);
    }
  }

  lemma AheadStays(h: Hashes, genesis: Block, s: Store, a: Action)
    requires Safe(s, a) && Ahead(s) != [] && !a.Finish? && Next(h, s, a).Some?
    ensures var s' := Next(h, s, a).value;
      Ahead(s') == Ahead(s) && Ledger(genesis, s'.answers) == Ledger(genesis, s.answers)
  {
    hide Write, Validation;
    if a.Submit? {
      AnswerPush(genesis, s.answers, Answer(a.block, Some(ConcurrentWrite)));
    }
  }

  lemma {:induction false} RunGrows(h: Hashes, genesis: Block, trace: seq<Store>, i: nat, j: nat)
    requires Run(h, trace) && Inv(h, genesis, trace[0]) && i <= j < |trace|
    ensures Inv(h, genesis, trace[i]) && Inv(h, genesis, trace[j])
    ensures CommittedBlocks(genesis, trace[i]) <= CommittedBlocks(genesis, trace[j])
    decreases j - i
  {
    hide Inv;
    RunPrefix(h, trace, i);
    RunInv(h, genesis, trace[..i + 1]);
    if i < j {
      RunGrows(h, genesis, trace, i + 1, j);
      assert Step(h, trace[i], trace[i + 1]);
      var a :| Safe(trace[i], a) && Next(h, trace[i], a) == Some(trace[i + 1]);
      StepGrows(h, genesis, trace[i], a);
    }
  }

  lemma RunPrefix(h: Hashes, trace: seq<Store>, i: nat)
    requires Run(h, trace) && i < |trace|
    ensures Run(h, trace[..i + 1])
  {
    var prefix := trace[..i + 1];
    forall k | 0 < k < |prefix| ensures Step(h, prefix[k - 1], prefix[k]) {
      assert Step(h, trace[k - 1], trace[k]);
    }
  }

  // ---------------------------------------------------------------------------------------------
  // What the tables and the trees hold for a given list of blocks

  lemma {:induction false} RowAt(headers: seq<Header>, from: nat, n: nat)
    requires from <= n < from + |headers|
    requires forall i :: 0 <= i < |headers| ==> headers[i].number == from + i
    ensures Row(headers, n) == Some(headers[n - from])
    decreases |headers|
  {
    if n > from {
      RowAt(headers[1..], from + 1, n);
    }
  }

  lemma {:induction false} CommitmentAt(h: Hashes, headers: seq<Header>, i: nat)
    requires i < |headers|
    ensures |Commitments(h, headers)| == |headers|
    ensures Commitments(h, headers)[i] == h.header(headers[i])
    ensures Commitments(h, headers)[..i] == Commitments(h, headers[..i])
    decreases |headers|
  {
    var f := headers[..|headers| - 1];
    CommitmentsLength(h, f);
    if i < |f| {
      CommitmentAt(h, f, i);
      assert f[..i] == headers[..i];
    }
  }

  // ---------------------------------------------------------------------------------------------
  // The reads succeed and fit together.

  /** The partial chain below the last block of `ledger`. */
  ghost function Below(h: Hashes, ledger: seq<Block>, blocks: set<nat>): Partial
    requires ledger != []
  {
    Partial(Commitments(h, HeadersOf(ledger[..|ledger| - 1])), blocks - {|ledger| - 1})
  }

  function HeadersAt(ledger: seq<Block>, numbers: set<nat>): set<Header> {
    set b | b in numbers && b < |ledger| :: ledger[b].header
  }

  /** What a read returns when memory held the given blocks. */
  ghost function InputsAt(h: Hashes, ledger: seq<Block>, trees: Memory, blocks: set<nat>): Inputs
    requires ledger != []
  {
    Inputs(ledger[|ledger| - 1].header, HeadersAt(ledger, blocks - {|ledger| - 1}),
           Below(h, ledger, blocks), trees)
  }

  ghost predicate Tracks(h: Hashes, partial: Partial, headers: set<Header>) {
    && partial.tracked == (set x | x in headers :: x.number)
    && forall x :: x in headers ==>
         x.number < |partial.chain| && partial.chain[x.number] == h.header(x)
  }

  /** The headers are those of the tracked blocks, whose commitments are in the partial chain; the
      reference header commits to the partial chain and to the trees of the witnesses. */
  ghost predicate Consistent(h: Hashes, r: Inputs) {
    var consistent :=
      && Tracks(h, r.partial, r.headers)
      && |r.partial.chain| == r.latest.number
      && (r.latest.number > 0 ==> r.latest.chainRoot == h.chain(r.partial.chain))
      && r.latest.nullifierRoot == h.nullifiers(r.trees.nullifiers)
      && r.latest.accountRoot == h.accounts(r.trees.accounts);
    consistent
  }

  lemma {:induction false} InputsFitTogether(h: Hashes, ledger: seq<Block>, trees: Memory,
                                             blocks: set<nat>)
    requires Chained(h, ledger) && trees == Load(h, Replay(ledger).value)
    requires forall b :: b in blocks ==> b < |ledger|
    ensures Consistent(h, InputsAt(h, ledger, trees, blocks))
  {
    assert ledger != [];
    hide Chained, Replay, Load, Commitments, HeadersOf, HeadersAt, Consistent, Tracks;
    TipIsConsistent(h, ledger);
    LatestRoots(h, ledger);
    TrackedHeaders(h, ledger, blocks - {|ledger| - 1});
    Together(h, InputsAt(h, ledger, trees, blocks));
  }

  lemma {:induction false} TipIsConsistent(h: Hashes, ledger: seq<Block>)
    requires Chained(h, ledger)
    ensures forall i :: 0 <= i < |ledger| ==> ledger[i].header.number == i
    ensures var tip := ledger[|ledger| - 1].header;
      var chain := Commitments(h, HeadersOf(ledger[..|ledger| - 1]));
      |chain| == tip.number && (tip.number > 0 ==> tip.chainRoot == h.chain(chain))
  {
    HeaderTable(h, ledger);
    LatestLink(h, ledger);
    hide Chained, Replay, Commitments;
    CommitmentsLength(h, HeadersOf(ledger[..|ledger| - 1]));
  }

  lemma Together(h: Hashes, r: Inputs)
    requires Tracks(h, r.partial, r.headers)
    requires |r.partial.chain| == r.latest.number
    requires r.latest.number > 0 ==> r.latest.chainRoot == h.chain(r.partial.chain)
    requires r.latest.nullifierRoot == h.nullifiers(r.trees.nullifiers)
    requires r.latest.accountRoot == h.accounts(r.trees.accounts)
    ensures Consistent(h, r)
  {
  }

  lemma {:induction false} TrackedHeaders(h: Hashes, ledger: seq<Block>, tracked: set<nat>)
    requires forall i :: 0 <= i < |ledger| ==> ledger[i].header.number == i
    requires ledger != [] && forall b :: b in tracked ==> b < |ledger| - 1
    ensures var chain := Commitments(h, HeadersOf(ledger[..|ledger| - 1]));
      Tracks(h, Partial(chain, tracked), HeadersAt(ledger, tracked))
  {
    hide Commitments, HeadersOf, Tracks, HeadersAt;
    TrackedCommitments(h, ledger, tracked);
    TracksThose(h, ledger, Commitments(h, HeadersOf(ledger[..|ledger| - 1])), tracked);
  }

  lemma {:induction false} TracksThose(h: Hashes, ledger: seq<Block>, chain: seq<nat>,
                                       tracked: set<nat>)
    requires forall i :: 0 <= i < |ledger| ==> ledger[i].header.number == i
    requires forall b :: b in tracked ==>
      b < |ledger| && b < |chain| && chain[b] == h.header(ledger[b].header)
    ensures Tracks(h, Partial(chain, tracked), HeadersAt(ledger, tracked))
  {
    var headers := HeadersAt(ledger, tracked);
    var numbers := set x | x in headers :: x.number;
    forall b | b in tracked ensures b in numbers {
      assert ledger[b].header in headers;
    }
    forall b | b in numbers ensures b in tracked {
      var x :| x in headers && x.number == b;
    }
  }

  /** Capturing from memory that holds `ledger` fails exactly for references beyond the tip. */
  lemma {:induction false} CaptureIsExact(h: Hashes, ledger: seq<Block>, m: Memory,
                                          blocks: set<nat>)
    requires Chained(h, ledger) && m == Load(h, Replay(ledger).value)
    ensures Capture(m, blocks) == Some(
      if forall b :: b in blocks ==> b < |ledger|
      then Ok((|ledger| - 1, Below(h, ledger, blocks)))
      else Err(UnknownReference(Max(blocks), |ledger| - 1)))
  {
    HeaderTable(h, ledger);
    var latest := |ledger| - 1;
    var headers := HeadersOf(ledger);
    hide Chained, Replay, Commitments, HeadersOf;
    CommitmentAt(h, headers, latest);
    assert headers[..latest] == HeadersOf(ledger[..latest]);
    CaptureFrom(m, blocks, |ledger|, Commitments(h, HeadersOf(ledger[..latest])));
  }

  lemma {:induction false} CaptureFrom(m: Memory, blocks: set<nat>, n: nat, front: seq<nat>)
    requires 0 < n == |m.chain| && m.chain[..n - 1] == front
    ensures Capture(m, blocks) == Some(
      if forall b :: b in blocks ==> b < n then Ok((n - 1, Partial(front, blocks - {n - 1})))
      else Err(UnknownReference(Max(blocks), n - 1)))
  {
    if blocks != {} && Max(blocks) < n {
      assert forall b :: b in blocks ==> b < n;
    }
  }

  /** Fetching later, when the database holds more blocks, finds the headers that belong to what
      was captured. */
  lemma {:induction false} FetchFinds(h: Hashes, ledger: seq<Block>, trees: Memory,
                                      later: seq<Block>, db: Database, blocks: set<nat>)
    requires ledger != [] && Holds(h, later, db) && ledger <= later
    requires forall b :: b in blocks ==> b < |ledger|
    ensures Fetch(db, |ledger| - 1, Below(h, ledger, blocks), trees) ==
            Some(InputsAt(h, ledger, trees, blocks))
  {
    hide Holds, Row, Fetch, HeadersAt, Commitments, HeadersOf;
    var latest := |ledger| - 1;
    RowsFound(h, ledger, later, db, blocks - {latest});
    CommitmentsLength(h, HeadersOf(ledger[..latest]));
    FetchIs(db, ledger[latest].header, Below(h, ledger, blocks), trees,
            HeadersAt(ledger, blocks - {latest}));
  }

  lemma {:induction false} RowsFound(h: Hashes, ledger: seq<Block>, later: seq<Block>,
                                     db: Database, tracked: set<nat>)
    requires ledger != [] && Holds(h, later, db) && ledger <= later
    requires forall b :: b in tracked ==> b < |ledger|
    ensures var latest := ledger[|ledger| - 1].header;
      latest.number == |ledger| - 1 && Row(db.headers, latest.number) == Some(latest)
    ensures (set x | x in db.headers && x.number in tracked) == HeadersAt(ledger, tracked)
  {
    HeaderTable(h, later);
    HeadersFound(ledger, later, tracked);
    hide Chained, Replay, HeadersAt;
    RowAt(db.headers, 0, |ledger| - 1);
  }

  lemma FetchIs(db: Database, latest: Header, partial: Partial, trees: Memory,
                headers: set<Header>)
    requires Row(db.headers, latest.number) == Some(latest)
    requires headers == set x | x in db.headers && x.number in partial.tracked
    requires forall b :: b in partial.tracked ==> b < |partial.chain|
    ensures Fetch(db, latest.number, partial, trees) ==
            Some(Inputs(latest, headers, partial, trees))
  {
  }

  lemma {:induction false} TrackedCommitments(h: Hashes, ledger: seq<Block>, tracked: set<nat>)
    requires ledger != [] && forall b :: b in tracked ==> b < |ledger| - 1
    ensures var chain := Commitments(h, HeadersOf(ledger[..|ledger| - 1]));
      forall b :: b in tracked ==> b < |chain| && chain[b] == h.header(ledger[b].header)
  {
    hide Commitments;
    var headers := HeadersOf(ledger[..|ledger| - 1]);
    forall b | b in tracked
      ensures b < |headers| == |Commitments(h, headers)|
      ensures Commitments(h, headers)[b] == h.header(ledger[b].header)
    {
      CommitmentAt(h, headers, b);
    }
  }

  lemma {:induction false} HeadersFound(ledger: seq<Block>, later: seq<Block>,
                                        tracked: set<nat>)
    requires ledger <= later && forall b :: b in tracked ==> b < |ledger|
    requires forall i :: 0 <= i < |later| ==> later[i].header.number == i
    ensures (set x | x in HeadersOf(later) && x.number in tracked) == HeadersAt(ledger, tracked)
  {
    forall b | b in tracked ensures ledger[b].header in HeadersOf(later) {
      assert HeadersOf(later)[b] == ledger[b].header;
    }
  }

  /** The caller names block `b`, or asks for a note whose last block it is. */
  predicate Wanted(blocks: seq<Block>, references: set<nat>, notes: set<nat>, b: nat) {
    b in references || exists n :: n in notes && LastCreates(blocks, b, n)
  }

  /** The answer refers to the last block of `ledger`; it tracks exactly the other blocks that are
      wanted, with their headers, in the chain below that block. */
  ghost predicate Covers(h: Hashes, blocks: seq<Block>, ledger: seq<Block>, references: set<nat>,
                         notes: set<nat>, r: Inputs)
    requires ledger != []
  {
    && r.latest == ledger[|ledger| - 1].header
    && ChainOf(h, ledger[..|ledger| - 1], r.partial.chain)
    && (forall b: nat :: b in r.partial.tracked <==>
          b != |ledger| - 1 && Wanted(blocks, references, notes, b))
    && (forall x :: x in r.headers ==> x.number < |ledger| && x == ledger[x.number].header)
  }

  /** The answer to a request for notes of `blocks` when memory held `ledger` and was `trees`. */
  ghost predicate Served(h: Hashes, blocks: seq<Block>, ledger: seq<Block>, trees: Memory,
                         references: set<nat>, notes: set<nat>,
                         r: Option<Result<Inputs, ReadError>>)
    requires ledger != []
  {
    var beyond := exists b :: b in references && b >= |ledger|;
    var served :=
      && r.Some?
      && (beyond ==> exists b :: b in references && (forall c :: c in references ==> c <= b) &&
                                 r.value == Err(UnknownReference(b, |ledger| - 1)))
      && (!beyond ==> r.value.Ok? && r.value.value.trees == trees
                      && Covers(h, blocks, ledger, references, notes, r.value.value)
                      && Consistent(h, r.value.value));
    served
  }

  lemma NoteBlocksAre(h: Hashes, blocks: seq<Block>, db: Database, notes: set<nat>)
    requires Holds(h, blocks, db)
    ensures forall b: nat :: b in NoteBlocks(db, notes) <==>
      exists n :: n in notes && LastCreates(blocks, b, n)
    ensures forall b :: b in NoteBlocks(db, notes) ==> b < |blocks|
  {
    TableRows(h, blocks);
    hide Chained, Replay, LastCreates, NullifiersOf, AccountsOf;
    forall b | b in NoteBlocks(db, notes) ensures b < |blocks| {
      var n :| n in notes && n in db.notes && db.notes[n] == b;
      LastBelongs(blocks, b, n);
    }
    forall b: nat ensures b in NoteBlocks(db, notes) <==>
      exists n :: n in notes && LastCreates(blocks, b, n)
    {
    }
  }

  lemma LastBelongs(blocks: seq<Block>, b: nat, n: nat)
    requires LastCreates(blocks, b, n)
    ensures b < |blocks|
  {
  }

  lemma HeadersBelong(ledger: seq<Block>, numbers: set<nat>)
    requires forall i :: 0 <= i < |ledger| ==> ledger[i].header.number == i
    ensures forall x :: x in HeadersAt(ledger, numbers) ==>
      x.number < |ledger| && x == ledger[x.number].header
  {
  }

  lemma AnswerCovers(h: Hashes, blocks: seq<Block>, ledger: seq<Block>, trees: Memory,
                     references: set<nat>, notes: set<nat>, wanted: set<nat>)
    requires ledger != [] && forall i :: 0 <= i < |ledger| ==> ledger[i].header.number == i
    requires forall b: nat :: b in wanted <==> Wanted(blocks, references, notes, b)
    ensures Covers(h, blocks, ledger, references, notes, InputsAt(h, ledger, trees, wanted))
  {
    hide Commitments, HeadersOf, ChainOf, Wanted, HeadersAt;
    ChainHolds(h, ledger[..|ledger| - 1]);
    HeadersBelong(ledger, wanted - {|ledger| - 1});
  }

  /** Whatever happens between its three reads, a request for block inputs panics nowhere. It is
      rejected exactly for a reference of the caller's own that lies beyond the tip. Otherwise it
      gets the latest header, a partial chain and trees that fit together; of the notes asked for,
      every one that was committed can be proved, and nothing is tracked that was not asked for. */
  lemma BlockInputs(h: Hashes, genesis: Block, trace: seq<Store>, i: nat, j: nat, k: nat,
                    references: set<nat>, notes: set<nat>)
    requires Run(h, trace) && Inv(h, genesis, trace[0]) && i <= j <= k < |trace|
    requires !WriteLocked(trace[j])
    ensures var s1, s2, s3 := trace[i], trace[j], trace[k];
      Served(h, CommittedBlocks(genesis, s1), Ledger(genesis, s2.answers), s2.memory, references,
             notes, GetBlockInputs(s1, s2, s3, references, notes))
  {
    hide Inv, Run, Served, GetBlockInputs, CommittedBlocks;
    RunGrows(h, genesis, trace, i, j);
    RunGrows(h, genesis, trace, j, k);
    BlockInputsFrom(h, genesis, trace[i], trace[j], trace[k], references, notes);
  }

  lemma BlockInputsFrom(h: Hashes, genesis: Block, s1: Store, s2: Store, s3: Store,
                        references: set<nat>, notes: set<nat>)
    requires Inv(h, genesis, s1) && Inv(h, genesis, s2) && Inv(h, genesis, s3)
    requires CommittedBlocks(genesis, s1) <= CommittedBlocks(genesis, s2)
    requires CommittedBlocks(genesis, s2) <= CommittedBlocks(genesis, s3) && !WriteLocked(s2)
    ensures Served(h, CommittedBlocks(genesis, s1), Ledger(genesis, s2.answers), s2.memory,
                   references, notes, GetBlockInputs(s1, s2, s3, references, notes))
  {
    var ledger, later := Ledger(genesis, s2.answers), CommittedBlocks(genesis, s3);
    assert CommittedBlocks(genesis, s2) == ledger by {
      hide Chained, Replay, Load;
    }
    assert Holds(h, later, s3.db) && Holds(h, CommittedBlocks(genesis, s1), s1.db);
    assert Chained(h, ledger) && s2.memory == Load(h, Replay(ledger).value);
    hide Inv, Holds, CommittedBlocks, WriteLocked, Chained, Replay, Load, GetBlockInputs, Served;
    ReadsServe(h, CommittedBlocks(genesis, s1), ledger, later, s1, s2, s3, references, notes);
  }

  lemma {:induction false} ReadsAre(h: Hashes, ledger: seq<Block>, later: seq<Block>, s1: Store,
                                    s2: Store, s3: Store, references: set<nat>, notes: set<nat>)
    requires Chained(h, ledger) && s2.memory == Load(h, Replay(ledger).value)
    requires Holds(h, later, s3.db) && ledger <= later
    ensures var wanted := references + NoteBlocks(s1.db, notes);
      GetBlockInputs(s1, s2, s3, references, notes) == Some(
        if forall b :: b in wanted ==> b < |ledger| then Ok(InputsAt(h, ledger, s2.memory, wanted))
        else Err(UnknownReference(Max(wanted), |ledger| - 1)))
  {
    assert ledger != [];
    hide Holds, Chained, Replay, Load, InputsAt, Capture, Fetch, NoteBlocks, HeadersOf;
    var wanted := references + NoteBlocks(s1.db, notes);
    CaptureIsExact(h, ledger, s2.memory, wanted);
    if forall b :: b in wanted ==> b < |ledger| {
      FetchFinds(h, ledger, s2.memory, later, s3.db, wanted);
    }
  }

  lemma {:induction false} Refuses(h: Hashes, blocks: seq<Block>, ledger: seq<Block>, trees: Memory,
                                   references: set<nat>, notes: set<nat>, others: set<nat>,
                                   r: Option<Result<Inputs, ReadError>>)
    requires ledger != [] && forall b :: b in others ==> b < |ledger|
    requires exists b :: b in references && b >= |ledger|
    requires r == Some(Err(UnknownReference(Max(references + others), |ledger| - 1)))
    ensures Served(h, blocks, ledger, trees, references, notes, r)
  {
    hide Covers, Consistent;
    var highest := Max(references + others);
    assert highest in references;
  }

  lemma {:induction false} Grants(h: Hashes, blocks: seq<Block>, ledger: seq<Block>, trees: Memory,
                                  references: set<nat>, notes: set<nat>, wanted: set<nat>)
    requires Chained(h, ledger) && trees == Load(h, Replay(ledger).value)
    requires forall b :: b in wanted ==> b < |ledger|
    requires forall b: nat :: b in wanted <==> Wanted(blocks, references, notes, b)
    requires references <= wanted
    ensures Served(h, blocks, ledger, trees, references, notes,
                   Some(Ok(InputsAt(h, ledger, trees, wanted))))
  {
    assert ledger != [];
    TipIsConsistent(h, ledger);
    hide Chained, Replay, Load, Consistent, Covers, Wanted, HeadersAt, Below;
    InputsFitTogether(h, ledger, trees, wanted);
    AnswerCovers(h, blocks, ledger, trees, references, notes, wanted);
  }

  lemma {:induction false} ReadsServe(h: Hashes, blocks: seq<Block>, ledger: seq<Block>,
                                      later: seq<Block>, s1: Store, s2: Store, s3: Store,
                                      references: set<nat>, notes: set<nat>)
    requires Holds(h, blocks, s1.db) && Holds(h, later, s3.db)
    requires Chained(h, ledger) && s2.memory == Load(h, Replay(ledger).value)
    requires blocks <= ledger <= later
    ensures Served(h, blocks, ledger, s2.memory, references, notes,
                   GetBlockInputs(s1, s2, s3, references, notes))
  {
    assert ledger != [];
    hide Holds, Chained, Replay, Load, InputsAt, LastCreates, NoteBlocks, Served;
    hide GetBlockInputs, HeadersOf;
    ReadsAre(h, ledger, later, s1, s2, s3, references, notes);
    NoteBlocksAre(h, blocks, s1.db, notes);
    var others := NoteBlocks(s1.db, notes);
    var r := GetBlockInputs(s1, s2, s3, references, notes);
    if exists b :: b in references && b >= |ledger| {
      Refuses(h, blocks, ledger, s2.memory, references, notes, others, r);
    } else {
      Grants(h, blocks, ledger, s2.memory, references, notes, references + others);
    }
  }

  /** The same for batch inputs, which need at least one reference block. */
  lemma BatchInputs(h: Hashes, genesis: Block, trace: seq<Store>, i: nat, j: nat, k: nat,
                    references: set<nat>, notes: set<nat>)
    requires Run(h, trace) && Inv(h, genesis, trace[0]) && i <= j <= k < |trace|
    requires !WriteLocked(trace[j])
    ensures var s1, s2, s3 := trace[i], trace[j], trace[k];
      var r := GetBatchInputs(s1, s2, s3, references, notes);
      if references == {} then r == Some(Err(NoReferences))
      else Served(h, CommittedBlocks(genesis, s1), Ledger(genesis, s2.answers), s2.memory,
                  references, notes, r)
  {
    hide Inv, Run, Served, GetBlockInputs, CommittedBlocks;
    BlockInputs(h, genesis, trace, i, j, k, references, notes);
  }
}
