/** What holds over every run of the store, whatever the interleaving and the failures. */
module StoreRuns {
  import opened Prelude
  import opened Stores
  import opened StoreLedger
  import opened StoreTables
  import opened StoreProtocol

  /** No `expect` fires and the invariant is kept. */
  lemma StepInv(h: Hashes, genesis: Block, s: Store, a: Action)
    requires Inv(h, genesis, s) && Safe(s, a)
    ensures Next(h, s, a).Some? && Inv(h, genesis, Next(h, s, a).value)
  {
    hide Inv;
    match a
    case Submit(b) => SubmitInv(h, genesis, s, b);
    case CheckHeader(answered) => HeadedInv(h, genesis, s, answered);
    case Validate => ValidatedInv(h, genesis, s);
    case Ready => ReadyInv(h, genesis, s);
    case Saved(ok) => SavedInv(h, genesis, s, ok);
    case Lock => LockedInv(h, genesis, s);
    case Finish => FinishedInv(h, genesis, s);
    case Cancel => CancelInv(h, genesis, s);
    case TaskWrite(t, ok) => TaskWriteInv(h, genesis, s, t, ok);
    case TaskCommit(t, ok) => TaskCommitInv(h, genesis, s, t, ok);
    case TaskRollback(t) => TaskRollbackInv(h, genesis, s, t);
    case _ => ReadersInv(h, genesis, s, a);
  }

  lemma {:induction false} RunInv(h: Hashes, genesis: Block, trace: seq<Store>)
    requires Run(h, trace) && Inv(h, genesis, trace[0])
    ensures Inv(h, genesis, trace[|trace| - 1])
    decreases |trace|
  {
    hide Inv;
    if |trace| > 1 {
      var f := trace[..|trace| - 1];
      RunInv(h, genesis, f);
      assert Step(h, trace[|trace| - 2], trace[|trace| - 1]);
      var a :| Safe(f[|f| - 1], a) && Next(h, f[|f| - 1], a) == Some(trace[|trace| - 1]);
      StepInv(h, genesis, f[|f| - 1], a);
    }
  }

  /** Memory is always what a reload of the accepted blocks would build. It differs from a reload
      of the committed database exactly while the current call has yet to apply the block its
      task committed, and that only under the write lock. */
  lemma {:induction false} MemoryIsReload(h: Hashes, genesis: Block, trace: seq<Store>)
    requires Run(h, trace) && Inv(h, genesis, trace[0])
    ensures var s := trace[|trace| - 1];
      && Chained(h, Ledger(genesis, s.answers))
      && s.memory == Load(h, Replay(Ledger(genesis, s.answers)).value)
      && (s.memory == Load(h, s.db) <==> Ahead(s) == [])
      && (!WriteLocked(s) || !NoGuards(s) ==> s.memory == Load(h, s.db))
  {
    RunInv(h, genesis, trace);
    Agreement(h, genesis, trace[|trace| - 1]);
  }

  lemma {:induction false} Agreement(h: Hashes, genesis: Block, s: Store)
    requires Inv(h, genesis, s)
    ensures Chained(h, Ledger(genesis, s.answers))
    ensures s.memory == Load(h, Replay(Ledger(genesis, s.answers)).value)
    ensures s.memory == Load(h, s.db) <==> Ahead(s) == []
    ensures !WriteLocked(s) || !NoGuards(s) ==> s.memory == Load(h, s.db)
  {
    hide Load, Replay, Chained, TasksAgree, WriterAgrees;
    var ledger := Ledger(genesis, s.answers);
    assert ledger + [] == ledger;
    ChainLength(h, ledger);
    ChainLength(h, ledger + Ahead(s));
  }

  lemma {:induction false} ChainLength(h: Hashes, ledger: seq<Block>)
    requires Chained(h, ledger)
    ensures |Load(h, Replay(ledger).value).chain| == |ledger|
  {
    HeaderTable(h, ledger);
    CommitmentsLength(h, HeadersOf(ledger));
  }

  lemma {:induction false} CommitmentsLength(h: Hashes, headers: seq<Header>)
    ensures |Commitments(h, headers)| == |headers|
    decreases |headers|
  {
    if headers != [] {
      CommitmentsLength(h, headers[..|headers| - 1]);
    }
  }

  /** The tables hold exactly these blocks: numbered without gaps, each pointing at its
      predecessor and committing to the chain before it, with no nullifier spent twice, and with
      every nullifier, account and note in its row. */
  ghost predicate Records(h: Hashes, db: Database, blocks: seq<Block>) {
    var records :=
      && Replay(blocks) == Some(db)
      && db.headers == HeadersOf(blocks)
      && NoDup(Spent(blocks))
      && NullifiersOf(blocks, db.nullifiers)
      && AccountsOf(blocks, db.accounts)
      && NotesOf(blocks, db.notes)
      && (forall i :: 0 <= i < |blocks| ==> blocks[i].header.number == i)
      && forall i :: 0 < i < |blocks| ==> Linked(h, blocks, i);
    records
  }

  /** The blocks in the database are the genesis block and those whose callers were told of
      success, in that order, followed by at most the one being applied. In particular a call that
      fails leaves no trace, in the database or in memory. */
  lemma AcceptedAreCommitted(h: Hashes, genesis: Block, trace: seq<Store>)
    requires Run(h, trace) && Inv(h, genesis, trace[0])
    ensures var s := trace[|trace| - 1];
      Records(h, s.db, Ledger(genesis, s.answers) + Ahead(s))
  {
    RunInv(h, genesis, trace);
    var s := trace[|trace| - 1];
    TablesOf(h, Ledger(genesis, s.answers) + Ahead(s));
  }

  lemma {:induction false} TablesOf(h: Hashes, ledger: seq<Block>)
    requires Chained(h, ledger)
    ensures Replay(ledger).Some? && Records(h, Replay(ledger).value, ledger)
  {
    hide Replay, Linked, NoDup, Spent, NullifiersOf, AccountsOf, NotesOf;
    LatestLink(h, ledger);
    LedgerSafety(h, ledger);
    HeaderTable(h, ledger);
    TableRows(h, ledger);
  }

  // ---------------------------------------------------------------------------------------------
  // What a call is told

  /** The current call ends with an error, and nothing else changes for anybody. */
  predicate Refused(s: Store, s': Store, error: ApplyError)
    requires s.writer.Some?
  {
    && s'.writer.None? && s'.answers == s.answers + [Answer(s.writer.value.block, Some(error))]
    && s'.db == s.db && s'.memory == s.memory && s'.requests == s.requests
  }

  /** A block that is submitted is turned away while another call is at work, or if its header does
      not commit to its transactions. */
  lemma SubmitTells(h: Hashes, s: Store, b: Block)
    ensures Next(h, s, Submit(b)).Some?
    ensures var s' := Next(h, s, Submit(b)).value;
      if s.writer.Some? then s' == s.(answers := s.answers + [Answer(b, Some(ConcurrentWrite))])
      else if b.header.txRoot != h.txs(b.txs) then
        s' == s.(answers := s.answers + [Answer(b, Some(InvalidTxCommitment))])
      else s' == s.(writer := Some(Writer(b, Checking)))
  {
  }

  /** Then if it does not follow the last accepted block. */
  lemma HeaderTells(h: Hashes, genesis: Block, s: Store)
    requires Inv(h, genesis, s) && Enabled(s, CheckHeader(true))
    ensures Next(h, s, CheckHeader(true)).Some?
    ensures var s', b := Next(h, s, CheckHeader(true)).value, s.writer.value.block;
      var ledger := Ledger(genesis, s.answers);
      if b.header.number != |ledger| then Refused(s, s', InvalidNumber)
      else if b.header.prev != h.header(ledger[|ledger| - 1].header) then
        Refused(s, s', InvalidPrevCommitment)
      else s' == s.(writer := Some(Writer(b, Validating)))
  {
    var ledger := Ledger(genesis, s.answers);
    assert Ahead(s) == [] && ledger + [] == ledger;
    assert s.db == Replay(ledger).value;
    HeaderTable(h, ledger);
    hide Inv, Chained, Replay, Ledger;
  }

  /** And then if anything is wrong with it over the blocks accepted so far. */
  lemma ValidationTells(h: Hashes, genesis: Block, s: Store)
    requires Inv(h, genesis, s) && Enabled(s, Validate)
    ensures Next(h, s, Validate).Some?
    ensures var s', b := Next(h, s, Validate).value, s.writer.value.block;
      var fault := Fault(h, Ledger(genesis, s.answers), b);
      if fault.Fail? then Refused(s, s', fault.error)
      else s'.writer.Some? && s'.tasks == s.tasks + [Task(b, Starting, Pending)]
  {
    ChecksAreExact(h, Ledger(genesis, s.answers), s.writer.value.block);
    hide Inv, Chained, Replay, Fault, Validation, UpdateFor;
  }

  // ---------------------------------------------------------------------------------------------
  // Dropping a call under the write lock

  /** If a call is dropped while its task may still commit, or has committed, the database ends up
      ahead of memory with nothing locked. */
  lemma DroppedGrant(h: Hashes, genesis: Block, s: Store)
    requires Inv(h, genesis, s) && WriteLocked(s)
    requires s.tasks[s.writer.value.phase.task].progress != Finished(false)
    ensures var t := s.writer.value.phase.task;
      var s1 := Return(s, Some(Cancelled));
      && (s.tasks[t].progress.Waiting? ==> Safe(s1, TaskCommit(t, true)))
      && var s2 := if s.tasks[t].progress.Waiting? then Next(h, s1, TaskCommit(t, true)).value
                   else s1;
         !WriteLocked(s2) && s2.memory != Load(h, s2.db)
  {
    var t := s.writer.value.phase.task;
    var ledger := Ledger(genesis, s.answers);
    if s.tasks[t].progress.Waiting? {
      CommitExtends(h, genesis, s, t);
      ChainLength(h, ledger + [s.tasks[t].block]);
      ChainLength(h, ledger);
    } else {
      Agreement(h, genesis, s);
    }
  }

  /** Hence a call can safely be dropped exactly when it does not hold the write lock or its task
      has already failed. */
  lemma DropIsSafe(h: Hashes, genesis: Block, s: Store)
    requires Inv(h, genesis, s) && s.writer.Some?
    ensures Inv(h, genesis, Return(s, Some(Cancelled))) <==> MayDrop(s)
  {
    var s' := Return(s, Some(Cancelled));
    if MayDrop(s) {
      ReturnInv(h, genesis, s, Cancelled);
    } else {
      var t := s.writer.value.phase.task;
      if Inv(h, genesis, s') {
        DroppedGrant(h, genesis, s);
        if s.tasks[t].progress.Waiting? {
          StepInv(h, genesis, s', TaskCommit(t, true));
          Agreement(h, genesis, Next(h, s', TaskCommit(t, true)).value);
        } else {
          Agreement(h, genesis, s');
        }
      }
    }
  }

  // ---------------------------------------------------------------------------------------------
  // Progress

  /** What the call, the database tasks and the readers at work can do without anybody giving up
      and without new arrivals. */
  predicate Moves(a: Action) {
    !a.Submit? && !a.AcquireRead? && !a.Ask? && !a.Cancel? && !a.DropRequest?
  }

  /** The call is queued behind guards whose holders all wait for a second one. */
  predicate Stuck(s: Store) {
    && WriterQueued(s) && s.readers == 0 && !NoGuards(s)
    && forall i :: 0 <= i < |s.requests| && Holding(s.requests[i]) ==>
         s.requests[i].stage.Asking?
  }

  /** While a call is in progress something can move, with one exception: nothing waits for a
      message that never comes, but a call may wait for readers that wait for it. */
  lemma HandshakeNeverStuck(h: Hashes, genesis: Block, s: Store)
    requires Inv(h, genesis, s) && s.writer.Some? && !Stuck(s)
    ensures exists a :: Safe(s, a) && Moves(a)
  {
    hide Chained, Replay, Load, Prepared, Write;
    match s.writer.value.phase
    case Checking => assert Safe(s, CheckHeader(true));
    case Validating => assert Safe(s, Validate);
    case AwaitReady(t, u) =>
      if s.tasks[t].progress.Starting? {
        if s.open.None? {
          assert Safe(s, TaskWrite(t, true));
        } else {
          OpenCanMove(s);
        }
      } else {
        assert Safe(s, Ready);
      }
    case AwaitSave(t, u) => assert Safe(s, Saved(true));
    case Locking(t, u) => QueuedCanMove(s);
    case Granted(t, u) =>
      if s.tasks[t].progress.Waiting? {
        assert Safe(s, TaskCommit(t, true));
      } else {
        assert Safe(s, Finish);
      }
  }

  lemma QueuedCanMove(s: Store)
    requires WriterQueued(s) && s.writer.value.phase.task < |s.tasks| && !Stuck(s)
    ensures exists a :: Safe(s, a) && Moves(a)
  {
    if NoGuards(s) {
      assert Safe(s, Lock);
    } else if s.readers > 0 {
      assert Safe(s, ReleaseRead);
    } else {
      var i :| 0 <= i < |s.requests| && Holding(s.requests[i]) && !s.requests[i].stage.Asking?;
      assert Safe(s, FetchLatest(i, true));
    }
  }

  /** A task left behind by a call that failed does not keep the database for itself. */
  lemma OpenCanMove(s: Store)
    requires TasksAgree(s.db, s.open, GrantedTask(s), PermitHeld(s), s.tasks)
    requires s.open.Some? && PermitHeld(s) != s.open
    ensures exists a :: Safe(s, a) && (a.TaskCommit? || a.TaskRollback?)
  {
    var o := s.open.value;
    assert TaskAgrees(s.db, s.open, GrantedTask(s), PermitHeld(s), o, s.tasks[o]);
    if s.tasks[o].permit.Sent? {
      assert Safe(s, TaskCommit(o, true));
    } else {
      assert Safe(s, TaskRollback(o));
    }
  }

  ghost predicate Reaches(h: Hashes, s: Store, s': Store) {
    exists trace :: Run(h, trace) && trace[0] == s && trace[|trace| - 1] == s'
  }

  lemma ReachesItself(h: Hashes, s: Store)
    ensures Reaches(h, s, s)
  {
    assert Run(h, [s]);
  }

  lemma ReachesNext(h: Hashes, s: Store, s': Store, a: Action)
    requires Reaches(h, s, s') && Safe(s', a) && Next(h, s', a).Some?
    ensures Reaches(h, s, Next(h, s', a).value)
  {
    var trace :| Run(h, trace) && trace[0] == s && trace[|trace| - 1] == s';
    hide Next;
    var s'' := Next(h, s', a).value;
    assert Step(h, s', s'');
    var longer := trace + [s''];
    assert forall i :: 0 < i < |longer| ==> Step(h, longer[i - 1], longer[i]);
    assert Run(h, longer) && longer[0] == s && longer[|longer| - 1] == s'';
  }

  lemma ReachesOn(h: Hashes, s: Store, s1: Store, s2: Store)
    requires Reaches(h, s, s1) && Reaches(h, s1, s2)
    ensures Reaches(h, s, s2)
  {
    var first :| Run(h, first) && first[0] == s && first[|first| - 1] == s1;
    var second :| Run(h, second) && second[0] == s1 && second[|second| - 1] == s2;
    var trace := first + second[1..];
    forall i | 0 < i < |trace| ensures Step(h, trace[i - 1], trace[i]) {
      if i >= |first| {
        assert Step(h, second[i - |first|], second[i - |first| + 1]);
      }
    }
    assert Run(h, trace) && trace[0] == s && trace[|trace| - 1] == s2;
  }

  /** With a fresh task for the block, at the given point of the handshake. */
  function At(s: Store, task: Task, open: Option<nat>, phase: Phase): Store {
    s.(tasks := s.tasks + [task], open := open, writer := Some(Writer(task.block, phase)))
  }

  /** A block that extends the ledger can always be applied: some run from a state in which nobody
      is at work ends with the block in the database and in memory and the caller told so. */
  lemma ExtensionIsApplied(h: Hashes, genesis: Block, s: Store, b: Block)
    requires Inv(h, genesis, s) && s.writer.None? && s.open.None? && NoGuards(s)
    requires Extends(h, Ledger(genesis, s.answers), b)
    ensures exists s' :: Reaches(h, s, s') && s'.answers == s.answers + [Answer(b, None)] &&
                         s'.db == Replay(Ledger(genesis, s.answers) + [b]).value &&
                         s'.memory == Load(h, s'.db)
  {
    var ledger := Ledger(genesis, s.answers);
    assert ledger + [] == ledger;
    LatestRow(h, genesis, s);
    ValidationIsExact(h, ledger, b);
    ReplayPush(ledger, b);
    MutationsFollowTables(h, ledger, b);
    hide Inv, Chained, Extends, Replay, Write, Validation, Next, Reaches, UpdateFor;
    UpToSpawn(h, ledger, s, b);
    UpToLock(h, s, b, Write(s.db, b).value, UpdateFor(h, s.memory, b));
    UpToAnswer(h, s, b, Write(s.db, b).value, UpdateFor(h, s.memory, b));
  }

  lemma {:induction false} UpToSpawn(h: Hashes, ledger: seq<Block>, s: Store, b: Block)
    requires ledger != [] && Fits(h, ledger, b) && Validation(h, s.memory, b).Pass?
    requires s.writer.None? && s.open.None? && s.db.headers == HeadersOf(ledger)
    requires s.db.headers[|s.db.headers| - 1].number == |ledger| - 1
    ensures Reaches(h, s, At(s, Task(b, Starting, Pending), None,
                             AwaitReady(|s.tasks|, UpdateFor(h, s.memory, b))))
  {
    hide Reaches, Validation, UpdateFor;
    ReachesItself(h, s);
    ReachesNext(h, s, s, Submit(b));
    var s1 := s.(writer := Some(Writer(b, Checking)));
    ReachesNext(h, s, s1, CheckHeader(true));
    var s2 := s.(writer := Some(Writer(b, Validating)));
    assert Validated(h, s2) == At(s, Task(b, Starting, Pending), None,
                                  AwaitReady(|s.tasks|, UpdateFor(h, s.memory, b)));
    ReachesNext(h, s, s2, Validate);
  }

  lemma UpToLock(h: Hashes, s: Store, b: Block, written: Database, u: Update)
    requires Reaches(h, s, At(s, Task(b, Starting, Pending), None, AwaitReady(|s.tasks|, u)))
    requires s.open.None? && Write(s.db, b) == Some(written)
    ensures Reaches(h, s, At(s, Task(b, Waiting(written), Pending), Some(|s.tasks|),
                             Locking(|s.tasks|, u)))
  {
    hide Reaches, Write;
    var t := |s.tasks|;
    var s1 := At(s, Task(b, Starting, Pending), None, AwaitReady(t, u));
    ReachesNext(h, s, s1, TaskWrite(t, true));
    var s2 := At(s, Task(b, Waiting(written), Pending), Some(t), AwaitReady(t, u));
    assert s2.tasks == s1.tasks[t := s2.tasks[t]];
    ReachesNext(h, s, s2, Ready);
    ReachesNext(h, s, s2.(writer := Some(Writer(b, AwaitSave(t, u)))), Saved(true));
  }

  lemma UpToAnswer(h: Hashes, s: Store, b: Block, written: Database, u: Update)
    requires Reaches(h, s, At(s, Task(b, Waiting(written), Pending), Some(|s.tasks|),
                              Locking(|s.tasks|, u)))
    requires NoGuards(s) && u == UpdateFor(h, s.memory, b)
    ensures exists s' :: Reaches(h, s, s') && s'.answers == s.answers + [Answer(b, None)] &&
                         s'.db == written &&
                         s'.memory == Memory(s.memory.nullifiers + u.nullifiers,
                                             s.memory.chain + [h.header(b.header)],
                                             s.memory.accounts + u.accounts)
  {
    hide Reaches;
    var t := |s.tasks|;
    var s1 := At(s, Task(b, Waiting(written), Pending), Some(t), Locking(t, u));
    ReachesNext(h, s, s1, Lock);
    var s2 := At(s, Task(b, Waiting(written), Sent), Some(t), Granted(t, u));
    assert s2.tasks == s1.tasks[t := s2.tasks[t]];
    ReachesNext(h, s, s2, TaskCommit(t, true));
    var s3 := At(s.(db := written), Task(b, Finished(true), Sent), None, Granted(t, u));
    assert s3.tasks == s2.tasks[t := s3.tasks[t]];
    ReachesNext(h, s, s3, Finish);
  }
}
