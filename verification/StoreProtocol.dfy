/** Whatever the interleaving, memory is what a reload would build from the accepted blocks, and
    the database is ahead of it only between the commit and the update, under the write lock. */
module StoreProtocol {
  import opened Prelude
  import opened Stores
  import opened StoreLedger

  /** The blocks whose callers were told they had been applied, in order. */
  function Accepted(answers: seq<Answer>): seq<Block> {
    if answers == [] then [] else
      var last := answers[|answers| - 1];
      Accepted(answers[..|answers| - 1]) + if last.error.None? then [last.block] else []
  }

  function Ledger(genesis: Block, answers: seq<Answer>): seq<Block> {
    [genesis] + Accepted(answers)
  }

  /** The one database task that may commit. */
  function GrantedTask(s: Store): Option<nat> {
    if WriteLocked(s) then Some(s.writer.value.phase.task) else None
  }

  /** The block that the database has committed and memory has yet to see. */
  function Ahead(s: Store): seq<Block> {
    if WriteLocked(s) && s.writer.value.phase.task < |s.tasks| &&
       s.tasks[s.writer.value.phase.task].progress == Finished(true)
    then [s.writer.value.block] else []
  }

  /** A task is waiting exactly while it has the database open, and has then written its block
      over the committed tables. A permit in use was given by the current call, which also holds
      every permit that is neither sent nor dropped. */
  ghost predicate TaskAgrees(db: Database, open: Option<nat>, granted: Option<nat>,
                             held: Option<nat>, t: nat, task: Task)
  {
    var agrees :=
      && (task.progress.Waiting? <==> open == Some(t))
      && (task.progress.Waiting? ==> Write(db, task.block) == Some(task.progress.written))
      && (task.permit.Sent? && !task.progress.Finished? ==> granted == Some(t))
      && (task.permit.Pending? ==> held == Some(t));
    agrees
  }

  ghost predicate TasksAgree(db: Database, open: Option<nat>, granted: Option<nat>,
                             held: Option<nat>, tasks: seq<Task>)
  {
    var agree :=
      && (open.Some? ==> open.value < |tasks|)
      && forall t :: 0 <= t < |tasks| ==> TaskAgrees(db, open, granted, held, t, tasks[t]);
    agree
  }

  /** The block passed validation, and the mutations are those it calls for. */
  ghost predicate Prepared(h: Hashes, ledger: seq<Block>, memory: Memory, b: Block, u: Update)
    requires ledger != []
  {
    var prepared :=
      Fits(h, ledger, b) && Validation(h, memory, b).Pass? && u == UpdateFor(h, memory, b);
    prepared
  }

  ghost predicate Assigned(tasks: seq<Task>, t: nat, b: Block, permit: Permit) {
    t < |tasks| && tasks[t].block == b && tasks[t].permit == permit
  }

  ghost predicate WriterAgrees(h: Hashes, ledger: seq<Block>, memory: Memory, w: Writer,
                               tasks: seq<Task>)
    requires ledger != []
  {
    match w.phase
    case Checking => w.block.header.txRoot == h.txs(w.block.txs)
    case Validating => Fits(h, ledger, w.block)
    case AwaitReady(t, u) =>
      && Prepared(h, ledger, memory, w.block, u) && Assigned(tasks, t, w.block, Pending)
      && tasks[t].progress != Finished(true)
    case AwaitSave(t, u) =>
      && Prepared(h, ledger, memory, w.block, u) && Assigned(tasks, t, w.block, Pending)
      && tasks[t].progress.Waiting?
    case Locking(t, u) =>
      && Prepared(h, ledger, memory, w.block, u) && Assigned(tasks, t, w.block, Pending)
      && tasks[t].progress.Waiting?
    case Granted(t, u) =>
      && Prepared(h, ledger, memory, w.block, u) && Assigned(tasks, t, w.block, Sent)
      && !tasks[t].progress.Starting?
  }

  ghost predicate Holds(h: Hashes, ledger: seq<Block>, db: Database) {
    Chained(h, ledger) && db == Replay(ledger).value
  }

  ghost predicate Inv(h: Hashes, genesis: Block, s: Store) {
    var ledger := Ledger(genesis, s.answers);
    var inv :=
      && Chained(h, ledger)
      && s.memory == Load(h, Replay(ledger).value)
      && Holds(h, ledger + Ahead(s), s.db)
      && TasksAgree(s.db, s.open, GrantedTask(s), PermitHeld(s), s.tasks)
      && (s.writer.Some? ==> WriterAgrees(h, ledger, s.memory, s.writer.value, s.tasks))
      && (WriteLocked(s) ==> NoGuards(s));
    inv
  }

  /** The invariant, from its parts. */
  lemma {:induction false} Assemble(h: Hashes, genesis: Block, s: Store, ledger: seq<Block>)
    requires ledger == Ledger(genesis, s.answers) && Chained(h, ledger)
    requires s.memory == Load(h, Replay(ledger).value)
    requires Holds(h, ledger + Ahead(s), s.db)
    requires TasksAgree(s.db, s.open, GrantedTask(s), PermitHeld(s), s.tasks)
    requires s.writer.Some? ==> WriterAgrees(h, ledger, s.memory, s.writer.value, s.tasks)
    requires WriteLocked(s) ==> NoGuards(s)
    ensures Inv(h, genesis, s)
  {
  }

  /** The state right after `State::load` on a database that holds `ledger`. */
  function Loaded(h: Hashes, db: Database, answers: seq<Answer>): Store {
    Store(db, None, [], Load(h, db), None, 0, [], answers)
  }

  lemma {:induction false} LoadedInv(h: Hashes, genesis: Block, answers: seq<Answer>)
    requires Chained(h, Ledger(genesis, answers))
    ensures Inv(h, genesis, Loaded(h, Replay(Ledger(genesis, answers)).value, answers))
  {
    var ledger := Ledger(genesis, answers);
    assert ledger + [] == ledger;
    assert Replay(ledger).Some?;
    hide Chained, Replay, Load;
    Assemble(h, genesis, Loaded(h, Replay(ledger).value, answers), ledger);
  }

  // ---------------------------------------------------------------------------------------------
  // Steps that touch neither the database nor memory

  lemma AnswerPush(genesis: Block, answers: seq<Answer>, a: Answer)
    ensures Ledger(genesis, answers + [a]) ==
            Ledger(genesis, answers) + if a.error.None? then [a.block] else []
  {
    assert (answers + [a])[..|answers|] == answers;
  }

  /** A call that returns an error, without having committed, leaves everything as it was. */
  lemma ReturnInv(h: Hashes, genesis: Block, s: Store, error: ApplyError)
    requires Inv(h, genesis, s) && s.writer.Some? && Ahead(s) == []
    requires WriteLocked(s) ==>
      s.tasks[s.writer.value.phase.task].progress.Finished?
    ensures Inv(h, genesis, Return(s, Some(error)))
    ensures Return(s, Some(error)).db == s.db && Return(s, Some(error)).memory == s.memory
  {
    hide Chained, Replay, Load, Validation, Write;
    var s' := Return(s, Some(error));
    AnswerPush(genesis, s.answers, Answer(s.writer.value.block, Some(error)));
    var ledger := Ledger(genesis, s.answers);
    assert ledger + [] == ledger;
    forall t | 0 <= t < |s'.tasks|
      ensures TaskAgrees(s'.db, s'.open, GrantedTask(s'), PermitHeld(s'), t, s'.tasks[t])
    {
      assert TaskAgrees(s.db, s.open, GrantedTask(s), PermitHeld(s), t, s.tasks[t]);
    }
    Assemble(h, genesis, s', ledger);
  }

  lemma SubmitInv(h: Hashes, genesis: Block, s: Store, b: Block)
    requires Inv(h, genesis, s)
    ensures Inv(h, genesis, Next(h, s, Submit(b)).value)
  {
    forall e: ApplyError
      ensures Inv(h, genesis, s.(answers := s.answers + [Answer(b, Some(e))]))
    {
      AnswerErrorInv(h, genesis, s, b, e);
    }
    if s.writer.None? && h.txs(b.txs) == b.header.txRoot {
      hide Chained, Replay, Load, TasksAgree, WriterAgrees;
      var s', ledger := s.(writer := Some(Writer(b, Checking))), Ledger(genesis, s.answers);
      SubmittedAgrees(h, ledger, s.memory, b, s.tasks);
      Assemble(h, genesis, s', ledger);
    }
  }

  /** Turning a call away does nothing else. */
  lemma AnswerErrorInv(h: Hashes, genesis: Block, s: Store, b: Block, e: ApplyError)
    requires Inv(h, genesis, s)
    ensures Inv(h, genesis, s.(answers := s.answers + [Answer(b, Some(e))]))
  {
    hide Chained, Replay, Load, TasksAgree, WriterAgrees;
    AnswerPush(genesis, s.answers, Answer(b, Some(e)));
    Assemble(h, genesis, s.(answers := s.answers + [Answer(b, Some(e))]),
             Ledger(genesis, s.answers));
  }

  lemma SubmittedAgrees(h: Hashes, ledger: seq<Block>, memory: Memory, b: Block,
                        tasks: seq<Task>)
    requires ledger != [] && h.txs(b.txs) == b.header.txRoot
    ensures WriterAgrees(h, ledger, memory, Writer(b, Checking), tasks)
  {
  }

  /** Moving on changes nothing but the phase. */
  lemma GoToInv(h: Hashes, genesis: Block, s: Store, phase: Phase)
    requires Inv(h, genesis, s) && s.writer.Some? && !WriteLocked(s) && !phase.Granted?
    requires PermitHeld(GoTo(s, phase)) == PermitHeld(s)
    requires WriterAgrees(h, Ledger(genesis, s.answers), s.memory,
                          s.writer.value.(phase := phase), s.tasks)
    ensures Inv(h, genesis, GoTo(s, phase))
  {
    hide Chained, Replay, Load, WriterAgrees, TasksAgree;
    Assemble(h, genesis, GoTo(s, phase), Ledger(genesis, s.answers));
  }

  /** While memory has caught up, the latest header row is that of the last accepted block. */
  lemma {:induction false} LatestRow(h: Hashes, genesis: Block, s: Store)
    requires Inv(h, genesis, s) && Ahead(s) == []
    ensures var ledger := Ledger(genesis, s.answers);
      && Chained(h, ledger) && s.db == Replay(ledger).value
      && s.db.headers == HeadersOf(ledger)
      && s.db.headers[|s.db.headers| - 1].number == |ledger| - 1
  {
    var ledger := Ledger(genesis, s.answers);
    assert ledger + [] == ledger;
    hide Chained, Replay, Load, TasksAgree, WriterAgrees;
    HeaderTable(h, ledger);
  }

  lemma HeadedInv(h: Hashes, genesis: Block, s: Store, answered: bool)
    requires Inv(h, genesis, s) && Enabled(s, CheckHeader(answered))
    ensures Inv(h, genesis, Headed(h, s, answered))
  {
    LatestRow(h, genesis, s);
    if Headed(h, s, answered).writer.Some? {
      assert Fits(h, Ledger(genesis, s.answers), s.writer.value.block) by {
        hide Chained, Replay, Load, TasksAgree;
      }
      hide Inv, Fits;
      GoToInv(h, genesis, s, Validating);
    } else {
      hide Inv;
      forall e: ApplyError ensures Inv(h, genesis, Return(s, Some(e))) {
        ReturnInv(h, genesis, s, e);
      }
    }
  }

  lemma ValidatedInv(h: Hashes, genesis: Block, s: Store)
    requires Inv(h, genesis, s) && Enabled(s, Validate)
    ensures Inv(h, genesis, Validated(h, s))
  {
    var b, ledger := s.writer.value.block, Ledger(genesis, s.answers);
    var v := Validation(h, s.memory, b);
    if v.Fail? {
      ReturnInv(h, genesis, s, v.error);
    } else {
      hide Chained, Replay, Load, Write, Validation, UpdateFor;
      SpawnedTasks(h, s);
      hide TasksAgree;
      Assemble(h, genesis, Validated(h, s), ledger);
    }
  }

  lemma SpawnedTasks(h: Hashes, s: Store)
    requires TasksAgree(s.db, s.open, GrantedTask(s), PermitHeld(s), s.tasks)
    requires Enabled(s, Validate) && Validation(h, s.memory, s.writer.value.block).Pass?
    ensures var s' := Validated(h, s);
      TasksAgree(s'.db, s'.open, GrantedTask(s'), PermitHeld(s'), s'.tasks)
  {
    hide Write, Validation, UpdateFor;
    var s' := Validated(h, s);
    forall t | 0 <= t < |s'.tasks|
      ensures TaskAgrees(s'.db, s'.open, GrantedTask(s'), PermitHeld(s'), t, s'.tasks[t])
    {
      if t < |s.tasks| {
        assert TaskAgrees(s.db, s.open, GrantedTask(s), PermitHeld(s), t, s.tasks[t]);
      }
    }
  }

  lemma ReadyInv(h: Hashes, genesis: Block, s: Store)
    requires Inv(h, genesis, s) && Enabled(s, Ready)
    ensures Inv(h, genesis, Next(h, s, Ready).value)
  {
    var t, u := s.writer.value.phase.task, s.writer.value.phase.update;
    if s.tasks[t].progress.Waiting? {
      GoToInv(h, genesis, s, AwaitSave(t, u));
    } else {
      ReturnInv(h, genesis, s, ClosedChannel);
    }
  }

  lemma SavedInv(h: Hashes, genesis: Block, s: Store, ok: bool)
    requires Inv(h, genesis, s) && Enabled(s, Saved(ok))
    ensures Inv(h, genesis, Next(h, s, Saved(ok)).value)
  {
    if ok {
      GoToInv(h, genesis, s, Locking(s.writer.value.phase.task, s.writer.value.phase.update));
    } else {
      ReturnInv(h, genesis, s, SaveFailed);
    }
  }

  /** Under the write lock the roots are still those the mutations were computed against, and the
      database task still waits for its permit. */
  lemma LockedInv(h: Hashes, genesis: Block, s: Store)
    requires Inv(h, genesis, s) && Enabled(s, Lock)
    ensures var t, u := s.writer.value.phase.task, s.writer.value.phase.update;
      Locked(h, s) == GoTo(SetTask(s, t, s.tasks[t].(permit := Sent)), Granted(t, u))
    ensures Inv(h, genesis, Locked(h, s))
  {
    hide Chained, Replay, Load, Write, Validation;
    var s', ledger := Locked(h, s), Ledger(genesis, s.answers);
    assert s' == GoTo(SetTask(s, s.writer.value.phase.task,
                              s.tasks[s.writer.value.phase.task].(permit := Sent)),
                      Granted(s.writer.value.phase.task, s.writer.value.phase.update));
    GrantedTasks(h, s, s');
    hide TasksAgree;
    Assemble(h, genesis, s', ledger);
  }

  lemma GrantedTasks(h: Hashes, s: Store, s': Store)
    requires TasksAgree(s.db, s.open, GrantedTask(s), PermitHeld(s), s.tasks)
    requires Enabled(s, Lock)
    requires var t, u := s.writer.value.phase.task, s.writer.value.phase.update;
      s' == GoTo(SetTask(s, t, s.tasks[t].(permit := Sent)), Granted(t, u))
    ensures TasksAgree(s'.db, s'.open, GrantedTask(s'), PermitHeld(s'), s'.tasks)
  {
    forall t | 0 <= t < |s'.tasks|
      ensures TaskAgrees(s'.db, s'.open, GrantedTask(s'), PermitHeld(s'), t, s'.tasks[t])
    {
      assert TaskAgrees(s.db, s.open, GrantedTask(s), PermitHeld(s), t, s.tasks[t]);
    }
  }

  lemma CancelInv(h: Hashes, genesis: Block, s: Store)
    requires Inv(h, genesis, s) && s.writer.Some? && MayDrop(s)
    ensures Inv(h, genesis, Return(s, Some(Cancelled)))
  {
    ReturnInv(h, genesis, s, Cancelled);
  }

  // ---------------------------------------------------------------------------------------------
  // The database task

  lemma TaskWriteInv(h: Hashes, genesis: Block, s: Store, t: nat, ok: bool)
    requires Inv(h, genesis, s) && Enabled(s, TaskWrite(t, ok))
    ensures Inv(h, genesis, Written(s, t, ok))
  {
    WrittenTasks(s, t, ok) by {
      hide Chained, Replay, Load, Prepared;
    }
    hide Chained, Replay, Load, Write, Prepared, TasksAgree;
    Assemble(h, genesis, Written(s, t, ok), Ledger(genesis, s.answers));
  }

  lemma WrittenTasks(s: Store, t: nat, ok: bool)
    requires TasksAgree(s.db, s.open, GrantedTask(s), PermitHeld(s), s.tasks)
    requires Enabled(s, TaskWrite(t, ok))
    ensures var s' := Written(s, t, ok);
      TasksAgree(s'.db, s'.open, GrantedTask(s'), PermitHeld(s'), s'.tasks)
  {
    hide Write;
    var s' := Written(s, t, ok);
    forall i | 0 <= i < |s'.tasks|
      ensures TaskAgrees(s'.db, s'.open, GrantedTask(s'), PermitHeld(s'), i, s'.tasks[i])
    {
      assert TaskAgrees(s.db, s.open, GrantedTask(s), PermitHeld(s), i, s.tasks[i]);
    }
  }

  lemma TaskRollbackInv(h: Hashes, genesis: Block, s: Store, t: nat)
    requires Inv(h, genesis, s) && Enabled(s, TaskRollback(t))
    ensures Inv(h, genesis, RolledBack(s, t))
  {
    hide Chained, Replay, Load, Write, Prepared;
    var s', ledger := RolledBack(s, t), Ledger(genesis, s.answers);
    forall i | 0 <= i < |s'.tasks|
      ensures TaskAgrees(s'.db, s'.open, GrantedTask(s'), PermitHeld(s'), i, s'.tasks[i])
    {
      assert TaskAgrees(s.db, s.open, GrantedTask(s), PermitHeld(s), i, s.tasks[i]);
      assert TaskAgrees(s.db, s.open, GrantedTask(s), PermitHeld(s), t, s.tasks[t]);
    }
    Assemble(h, genesis, s', ledger);
  }

  /** Only the database task of the call with the write lock commits, and what it commits is the
      block that extends the ledger. */
  lemma CommitExtends(h: Hashes, genesis: Block, s: Store, t: nat)
    requires Inv(h, genesis, s)
    requires t < |s.tasks| && s.tasks[t].progress.Waiting? && s.tasks[t].permit.Sent?
    ensures GrantedTask(s) == Some(t) && s.writer.value.block == s.tasks[t].block
    ensures var ledger, b := Ledger(genesis, s.answers), s.tasks[t].block;
      Holds(h, ledger + [b], s.tasks[t].progress.written)
  {
    assert TaskAgrees(s.db, s.open, GrantedTask(s), PermitHeld(s), t, s.tasks[t]);
    var ledger := Ledger(genesis, s.answers);
    assert Ahead(s) == [] && ledger + [] == ledger;
    hide Chained, Replay, Load, Write, Validation, UpdateFor, Fits;
    WrittenHolds(h, ledger, s.memory, s.db, s.tasks[t], s.writer.value.phase.update);
  }

  lemma WrittenHolds(h: Hashes, ledger: seq<Block>, memory: Memory, db: Database, task: Task,
                     u: Update)
    requires Holds(h, ledger, db) && memory == Load(h, db)
    requires Prepared(h, ledger, memory, task.block, u)
    requires task.progress.Waiting? && Write(db, task.block) == Some(task.progress.written)
    ensures Holds(h, ledger + [task.block], task.progress.written)
  {
    ValidationIsExact(h, ledger, task.block);
    hide Validation, Fits, UpdateFor, Write, Load;
    ChainedPush(h, ledger, task.block);
    ReplayPush(ledger, task.block);
  }

  lemma TaskCommitInv(h: Hashes, genesis: Block, s: Store, t: nat, ok: bool)
    requires Inv(h, genesis, s) && Enabled(s, TaskCommit(t, ok))
    ensures Inv(h, genesis, Committed(s, t, ok))
  {
    CommitExtends(h, genesis, s, t);
    hide Chained, Replay, Load, Write, Prepared, TasksAgree, WriterAgrees;
    CommittedTasks(s, t, ok);
    var s', ledger := Committed(s, t, ok), Ledger(genesis, s.answers);
    CommittedWriter(h, ledger, s.memory, s.writer.value, s.tasks, ok);
    hide Holds;
    Assemble(h, genesis, s', ledger);
  }

  lemma {:induction false} CommittedWriter(h: Hashes, ledger: seq<Block>, memory: Memory,
                                           w: Writer, tasks: seq<Task>, ok: bool)
    requires ledger != [] && WriterAgrees(h, ledger, memory, w, tasks) && w.phase.Granted?
    ensures w.phase.task < |tasks|
    ensures WriterAgrees(h, ledger, memory, w, tasks[w.phase.task :=
                           tasks[w.phase.task].(progress := Finished(ok))])
  {
    hide Prepared;
  }

  lemma CommittedTasks(s: Store, t: nat, ok: bool)
    requires TasksAgree(s.db, s.open, GrantedTask(s), PermitHeld(s), s.tasks)
    requires Enabled(s, TaskCommit(t, ok))
    ensures var s' := Committed(s, t, ok);
      TasksAgree(s'.db, s'.open, GrantedTask(s'), PermitHeld(s'), s'.tasks)
  {
    var s' := Committed(s, t, ok);
    assert TaskAgrees(s.db, s.open, GrantedTask(s), PermitHeld(s), t, s.tasks[t]);
    forall i | 0 <= i < |s'.tasks|
      ensures TaskAgrees(s'.db, s'.open, GrantedTask(s'), PermitHeld(s'), i, s'.tasks[i])
    {
      assert TaskAgrees(s.db, s.open, GrantedTask(s), PermitHeld(s), i, s.tasks[i]);
    }
  }

  lemma {:induction false} ChainedPop(h: Hashes, ledger: seq<Block>, b: Block)
    requires ledger != [] && Chained(h, ledger + [b])
    ensures Chained(h, ledger) && Extends(h, ledger, b)
  {
    assert (ledger + [b])[..|ledger|] == ledger;
  }

  /** Neither `apply_mutations` fails, and memory catches up with the database. */
  lemma FinishedInv(h: Hashes, genesis: Block, s: Store)
    requires Inv(h, genesis, s) && Enabled(s, Finish)
    ensures AppliedToMemory(h, s).Some? && Inv(h, genesis, AppliedToMemory(h, s).value)
  {
    var t, b := s.writer.value.phase.task, s.writer.value.block;
    var ledger := Ledger(genesis, s.answers);
    if s.tasks[t].progress.committed {
      ChainedPop(h, ledger, b);
      MutationsFollowTables(h, ledger, b);
      AnswerPush(genesis, s.answers, Answer(b, None));
      UpdatedInv(h, genesis, s);
    } else {
      ReturnInv(h, genesis, s, DbUpdateFailed);
    }
  }

  lemma {:induction false} UpdatedInv(h: Hashes, genesis: Block, s: Store)
    requires Inv(h, genesis, s) && Enabled(s, Finish)
    requires s.tasks[s.writer.value.phase.task].progress.committed
    requires var ledger, b := Ledger(genesis, s.answers), s.writer.value.block;
      && Ledger(genesis, s.answers + [Answer(b, None)]) == ledger + [b]
      && Chained(h, ledger + [b])
      && var u := UpdateFor(h, s.memory, b);
         Load(h, Replay(ledger + [b]).value) ==
         Memory(s.memory.nullifiers + u.nullifiers, s.memory.chain + [h.header(b.header)],
                s.memory.accounts + u.accounts)
    ensures AppliedToMemory(h, s).Some? && Inv(h, genesis, AppliedToMemory(h, s).value)
  {
    hide Chained, Replay, Load, Write, Validation;
    var ledger, b := Ledger(genesis, s.answers), s.writer.value.block;
    var s' := AppliedToMemory(h, s).value;
    forall i | 0 <= i < |s'.tasks|
      ensures TaskAgrees(s'.db, s'.open, GrantedTask(s'), PermitHeld(s'), i, s'.tasks[i])
    {
      assert TaskAgrees(s.db, s.open, GrantedTask(s), PermitHeld(s), i, s.tasks[i]);
    }
    assert (ledger + [b]) + [] == ledger + [b];
    Assemble(h, genesis, s', ledger + [b]);
  }

  predicate Reads(a: Action) {
    a.AcquireRead? || a.ReleaseRead? || a.Ask? || a.AskAgain? || a.FetchLatest? || a.DropRequest?
  }

  /** Readers change nothing but their own guards, and none of their lookups fails. */
  lemma ReadersInv(h: Hashes, genesis: Block, s: Store, a: Action)
    requires Inv(h, genesis, s) && Enabled(s, a) && Reads(a)
    ensures Next(h, s, a).Some? && Inv(h, genesis, Next(h, s, a).value)
  {
    ReadersSee(h, genesis, s);
    hide Next, Enabled;
    ReadersChange(h, s, a);
    hide Inv;
    GuardsInv(h, genesis, s, Next(h, s, a).value);
  }

  lemma GuardsInv(h: Hashes, genesis: Block, s: Store, s': Store)
    requires Inv(h, genesis, s) && s' == s.(readers := s'.readers, requests := s'.requests)
    requires WriteLocked(s) && NoGuards(s) ==> NoGuards(s')
    ensures Inv(h, genesis, s')
  {
    hide Chained, Replay, Load, Holds, WriterAgrees, TasksAgree, NoGuards;
    Assemble(h, genesis, s', Ledger(genesis, s.answers));
  }

  lemma ReadersChange(h: Hashes, s: Store, a: Action)
    requires Enabled(s, a) && Reads(a) && s.memory.chain != [] && s.db.headers != []
    ensures Next(h, s, a).Some?
    ensures var s' := Next(h, s, a).value;
      && s' == s.(readers := s'.readers, requests := s'.requests)
      && (WriteLocked(s) && NoGuards(s) ==> NoGuards(s'))
  {
    hide Write, Validation;
  }

  lemma ReadersSee(h: Hashes, genesis: Block, s: Store)
    requires Inv(h, genesis, s)
    ensures s.memory.chain != [] && s.db.headers != []
  {
    var ledger := Ledger(genesis, s.answers);
    HeaderTable(h, ledger);
    HeaderTable(h, ledger + Ahead(s));
  }
}
