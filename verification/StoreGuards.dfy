/** Requests for the current chain data, which may take a second read guard while they hold one.
    The lock prefers writers and is not re-entrant. */
module StoreGuards {
  import opened Prelude
  import opened Stores
  import opened StoreLedger
  import opened StoreProtocol
  import opened StoreRuns

  /** A run together with the steps it takes. */
  ghost predicate Follows(h: Hashes, trace: seq<Store>, steps: seq<Action>) {
    && |trace| == |steps| + 1
    && forall i :: 0 <= i < |steps| ==>
         Safe(trace[i], steps[i]) && Leads(h, trace[i], steps[i], trace[i + 1])
  }

  /** A call is queued for the write lock behind a request that holds one guard and waits for
      another. */
  predicate Stalled(s: Store, i: nat) {
    WriterQueued(s) && i < |s.requests| && s.requests[i].stage.Asking?
  }

  // ---------------------------------------------------------------------------------------------
  // What a step does to a request

  /** A request never starts over, and stays as it is once it is answered or dropped. */
  lemma RequestKept(h: Hashes, s: Store, a: Action, i: nat)
    requires Safe(s, a) && Next(h, s, a).Some? && i < |s.requests|
    ensures var s' := Next(h, s, a).value;
      && i < |s'.requests| && s'.requests[i].number == s.requests[i].number
      && (s'.requests[i].stage.Asking? ==> s.requests[i].stage.Asking?)
      && (!Holding(s.requests[i]) ==> s'.requests[i] == s.requests[i])
  {
    hide Write, Validation;
  }

  lemma {:induction false} NeverAsksLater(h: Hashes, trace: seq<Store>, i: nat)
    requires Run(h, trace) && i < |trace[0].requests|
    ensures var s := trace[|trace| - 1];
      i < |s.requests| && (s.requests[i].stage.Asking? ==> trace[0].requests[i].stage.Asking?)
    decreases |trace|
  {
    if |trace| > 1 {
      var f := trace[..|trace| - 1];
      NeverAsksLater(h, f, i);
      assert Step(h, trace[|trace| - 2], trace[|trace| - 1]);
      var a :| Safe(f[|f| - 1], a) && Next(h, f[|f| - 1], a) == Some(trace[|trace| - 1]);
      hide Next, Safe;
      RequestKept(h, f[|f| - 1], a, i);
    }
  }

  // ---------------------------------------------------------------------------------------------
  // Waiting for a guard while holding one

  /** The second guard is refused exactly while a writer is queued. */
  lemma SecondGuardWaits(h: Hashes, genesis: Block, s: Store, i: nat)
    requires Inv(h, genesis, s) && i < |s.requests| && s.requests[i].stage.Asking?
    ensures !Enabled(s, AskAgain(i)) <==> Stalled(s, i)
  {
    hide Chained, Replay, Load, Holds, TasksAgree, WriterAgrees;
    assert Holding(s.requests[i]);
  }

  lemma StallStays(h: Hashes, s: Store, a: Action, i: nat)
    requires Stalled(s, i) && Safe(s, a) && Next(h, s, a).Some?
    requires !a.Cancel? && a != DropRequest(i)
    ensures !a.Lock? && !a.AskAgain? && !a.Ask? && !a.AcquireRead?
    ensures Stalled(Next(h, s, a).value, i) && Next(h, s, a).value.writer == s.writer
  {
    hide Write, Validation;
    assert Holding(s.requests[i]);
    assert !a.Lock? && !a.AskAgain? && !a.Ask? && !a.AcquireRead?;
    hide NoGuards, CanRead;
  }

  /** From then on neither of the two ever proceeds, and no reader gets in, whatever else happens:
      in every continuation both are still waiting, unless the call or the request is dropped. */
  lemma {:induction false} StallIsForever(h: Hashes, genesis: Block, trace: seq<Store>,
                                          steps: seq<Action>, i: nat)
    requires Follows(h, trace, steps) && Inv(h, genesis, trace[0]) && Stalled(trace[0], i)
    requires forall k :: 0 <= k < |steps| ==> !steps[k].Cancel? && steps[k] != DropRequest(i)
    ensures var s := trace[|trace| - 1];
      Inv(h, genesis, s) && Stalled(s, i) && s.writer == trace[0].writer
    ensures forall k :: 0 <= k < |steps| ==>
      !steps[k].Lock? && !steps[k].AskAgain? && !steps[k].Ask? && !steps[k].AcquireRead?
    decreases |steps|
  {
    hide Inv, Stalled;
    if steps != [] {
      var n := |steps| - 1;
      StallIsForever(h, genesis, trace[..n + 1], steps[..n], i);
      assert Safe(trace[n], steps[n]) && Leads(h, trace[n], steps[n], trace[n + 1]);
      StepInv(h, genesis, trace[n], steps[n]);
      StallStays(h, trace[n], steps[n], i);
    }
  }

  // ---------------------------------------------------------------------------------------------
  // When that can happen

  /** A call in progress can be dropped, and what it leaves in the database rolled back. */
  lemma ComesToRest(h: Hashes, genesis: Block, s: Store)
    requires Inv(h, genesis, s) && CanRead(s)
    ensures exists s' :: Reaches(h, s, s') && AtRest(h, genesis, s') && s'.requests == s.requests
  {
    hide Inv, Reaches, Next;
    ReachesItself(h, s);
    if s.writer.None? {
      RollsBack(h, genesis, s, s);
    } else {
      assert Safe(s, Cancel);
      CancelInv(h, genesis, s);
      var s' := Return(s, Some(Cancelled));
      assert Next(h, s, Cancel) == Some(s') by {
        CancelReturns(h, s);
      }
      ReachesNext(h, s, s, Cancel);
      RollsBack(h, genesis, s, s');
    }
  }

  ghost predicate AtRest(h: Hashes, genesis: Block, s: Store) {
    Inv(h, genesis, s) && s.writer.None? && s.open.None?
  }

  lemma CancelReturns(h: Hashes, s: Store)
    requires Enabled(s, Cancel)
    ensures Next(h, s, Cancel) == Some(Return(s, Some(Cancelled)))
  {
  }

  lemma RollsBack(h: Hashes, genesis: Block, s0: Store, s: Store)
    requires Reaches(h, s0, s) && Inv(h, genesis, s) && s.writer.None?
    ensures exists s' :: Reaches(h, s0, s') && AtRest(h, genesis, s') && s'.requests == s.requests
  {
    hide Reaches;
    if s.open.Some? {
      var t := s.open.value;
      OpenIsDropped(s, t) by {
        hide Chained, Replay, Load, Holds, TasksAgree;
      }
      hide Inv, Next;
      TaskRollbackInv(h, genesis, s, t);
      var s' := RolledBack(s, t);
      assert Next(h, s, TaskRollback(t)) == Some(s') by {
        RollbackIs(h, s, t);
      }
      ReachesNext(h, s0, s, TaskRollback(t));
      assert s'.requests == s.requests && AtRest(h, genesis, s');
    } else {
      assert AtRest(h, genesis, s);
    }
  }

  lemma RollbackIs(h: Hashes, s: Store, t: nat)
    requires Enabled(s, TaskRollback(t))
    ensures Next(h, s, TaskRollback(t)) == Some(RolledBack(s, t))
  {
  }

  lemma OpenIsDropped(s: Store, t: nat)
    requires TasksAgree(s.db, s.open, GrantedTask(s), PermitHeld(s), s.tasks)
    requires s.writer.None? && s.open == Some(t)
    ensures Enabled(s, TaskRollback(t))
  {
    hide Write;
    assert TaskAgrees(s.db, s.open, GrantedTask(s), PermitHeld(s), t, s.tasks[t]);
  }

  /** Some block always extends the chain, so that a writer can queue. */
  lemma {:induction false} WriterCanQueue(h: Hashes, genesis: Block, s: Store)
    requires AtRest(h, genesis, s)
    ensures exists s' :: Reaches(h, s, s') && WriterQueued(s') && s'.requests == s.requests
  {
    var ledger := Ledger(genesis, s.answers);
    assert ledger + [] == ledger;
    LatestRow(h, genesis, s);
    var b := Sealed(h, ledger, s.db, [], [], [], []);
    assert !PrefixTaken(h, s.db.accounts, Upsert(map[], []));
    hide Chained, Replay, Load, TasksAgree, PrefixTaken, Upsert, Sealed, Extends, Validation;
    SealedExtends(h, ledger, [], [], [], []);
    ValidationIsExact(h, ledger, b);
    hide Inv, Reaches, Write, UpdateFor;
    var u := UpdateFor(h, s.memory, b);
    UpToSpawn(h, ledger, s, b);
    UpToLock(h, s, b, Write(s.db, b).value, u);
    var s' := At(s, Task(b, Waiting(Write(s.db, b).value), Pending), Some(|s.tasks|),
                 Locking(|s.tasks|, u));
    assert WriterQueued(s') && s'.requests == s.requests;
  }

  lemma AskedIs(h: Hashes, s: Store, number: Option<nat>)
    requires Enabled(s, Ask(number))
    ensures Next(h, s, Ask(number)) == Some(Asked(s, number)) && CanRead(Asked(s, number))
  {
    hide Write, Validation, Asked;
    assert Next(h, s, Ask(number)) == Some(Asked(s, number));
    hide Next;
    StillReadable(s, number);
  }

  lemma StillReadable(s: Store, number: Option<nat>)
    requires CanRead(s)
    ensures CanRead(Asked(s, number))
  {
  }

  lemma AskedInv(h: Hashes, genesis: Block, s: Store, number: Option<nat>)
    requires Inv(h, genesis, s) && Enabled(s, Ask(number))
    ensures Inv(h, genesis, Asked(s, number)) && CanRead(Asked(s, number))
    ensures Next(h, s, Ask(number)) == Some(Asked(s, number))
  {
    hide Inv, Next, Asked, Enabled;
    AskedIs(h, s, number);
    ReadersInv(h, genesis, s, Ask(number));
  }

  /** A request can come to this exactly when it names a block number: only then does it take a
      second guard, and until it has that a writer may queue. */
  lemma StallsExactly(h: Hashes, genesis: Block, s: Store, number: Option<nat>)
    requires Inv(h, genesis, s) && Enabled(s, Ask(number))
    ensures (exists s' :: Reaches(h, Asked(s, number), s') && Stalled(s', |s.requests|))
            <==> number.Some?
  {
    hide Inv, Enabled;
    var asked, i := Asked(s, number), |s.requests|;
    AskedInv(h, genesis, s, number);
    hide CanRead;
    if number.Some? {
      hide Reaches;
      ComesToRest(h, genesis, asked);
      var s1 :| Reaches(h, asked, s1) && AtRest(h, genesis, s1) && s1.requests == asked.requests;
      WriterCanQueue(h, genesis, s1);
      var s2 :| Reaches(h, s1, s2) && WriterQueued(s2) && s2.requests == s1.requests;
      ReachesOn(h, asked, s1, s2);
      assert Stalled(s2, i);
    } else {
      forall s' | Reaches(h, asked, s') ensures !Stalled(s', i) {
        var trace :| Run(h, trace) && trace[0] == asked && trace[|trace| - 1] == s';
        hide Run;
        NeverAsksLater(h, trace, i);
      }
    }
  }

  lemma QueuedIsClosed(s: Store, i: nat)
    requires Stalled(s, i)
    ensures !Enabled(s, AskAgain(i))
  {
  }

  lemma StallsFrom(h: Hashes, genesis: Block, s: Store, number: nat)
    requires Inv(h, genesis, s) && Enabled(s, Ask(Some(number)))
    ensures exists s' :: Reaches(h, s, s') && Stalled(s', |s.requests|)
  {
    assert Safe(s, Ask(Some(number)));
    AskedIs(h, s, Some(number));
    hide Inv, Reaches, Next, Asked, Enabled, Safe, Stalled;
    var asked := Asked(s, Some(number));
    StallsExactly(h, genesis, s, Some(number));
    var s' :| Reaches(h, asked, s') && Stalled(s', |s.requests|);
    ReachesItself(h, s);
    ReachesNext(h, s, s, Ask(Some(number)));
    ReachesOn(h, s, asked, s');
  }

  lemma LoadedIsOpen(h: Hashes, genesis: Block, answers: seq<Answer>, db: Database, number: nat)
    requires Holds(h, Ledger(genesis, answers), db)
    ensures Inv(h, genesis, Loaded(h, db, answers))
    ensures Enabled(Loaded(h, db, answers), Ask(Some(number)))
  {
    hide Load, Chained;
    LoadedInv(h, genesis, answers);
    hide Inv, Replay, Holds;
  }

  /** In particular right after a start: a request with a number comes in, a call queues, and the
      request cannot go on. */
  lemma StallsFromLoad(h: Hashes, genesis: Block, answers: seq<Answer>, db: Database,
                       number: nat)
    requires Holds(h, Ledger(genesis, answers), db)
    ensures exists s :: Reaches(h, Loaded(h, db, answers), s) && Stalled(s, 0) &&
                        !Enabled(s, AskAgain(0))
  {
    var loaded := Loaded(h, db, answers);
    assert loaded.requests == [];
    hide Inv, Holds, Loaded, Reaches, Enabled, Stalled;
    LoadedIsOpen(h, genesis, answers, db, number);
    StallsFrom(h, genesis, loaded, number);
    var s :| Reaches(h, loaded, s) && Stalled(s, 0);
    QueuedIsClosed(s, 0);
  }

  // ---------------------------------------------------------------------------------------------
  // What such a request is told

  /** The commitments below the latest block. */
  function Peaks(h: Hashes, ledger: seq<Block>): seq<nat>
    requires ledger != []
  {
    Commitments(h, HeadersOf(ledger[..|ledger| - 1]))
  }

  function Due(h: Hashes, ledger: seq<Block>, number: Option<nat>): CurrentData
    requires ledger != []
  {
    if number == Some(|ledger| - 1) then UpToDate
    else Latest(ledger[|ledger| - 1].header, Peaks(h, ledger))
  }

  /** Where a request may be that was made when these were the accepted blocks. */
  ghost predicate OnCourse(h: Hashes, ledger: seq<Block>, r: Request)
    requires ledger != []
  {
    match r.stage
    case Asking => true
    case Fetching => r.number != Some(|ledger| - 1)
    case Answered(data) => data == Unavailable || data == Due(h, ledger, r.number)
    case Gone => true
  }

  /** While a guard is held no block is committed or applied. */
  lemma GuardsFreeze(h: Hashes, genesis: Block, s: Store, a: Action)
    requires Inv(h, genesis, s) && Safe(s, a) && !NoGuards(s) && Next(h, s, a).Some?
    ensures var s' := Next(h, s, a).value;
      s'.db == s.db && s'.memory == s.memory &&
      Ledger(genesis, s'.answers) == Ledger(genesis, s.answers)
  {
    assert !WriteLocked(s) by {
      hide Chained, Replay, Load, Holds, TasksAgree, WriterAgrees;
    }
    if a.TaskCommit? {
      CommitExtends(h, genesis, s, a.task);
    }
    hide Inv;
    NothingApplied(h, s, a);
    var s' := Next(h, s, a).value;
    if s'.answers != s.answers {
      AnswerPush(genesis, s.answers, s'.answers[|s.answers|]);
    }
  }

  lemma NothingApplied(h: Hashes, s: Store, a: Action)
    requires Safe(s, a) && Next(h, s, a).Some? && !WriteLocked(s) && !a.TaskCommit?
    ensures var s' := Next(h, s, a).value;
      && s'.db == s.db && s'.memory == s.memory
      && (s'.answers != s.answers ==>
            |s'.answers| == |s.answers| + 1 && s'.answers[|s.answers|].error.Some? &&
            s'.answers == s.answers + [s'.answers[|s.answers|]])
  {
    hide Write, Validation, NoGuards;
  }

  lemma {:induction false} RequestStep(h: Hashes, genesis: Block, s: Store, a: Action, i: nat)
    requires Inv(h, genesis, s) && Safe(s, a) && Next(h, s, a).Some?
    requires i < |s.requests| && Holding(s.requests[i])
    requires OnCourse(h, Ledger(genesis, s.answers), s.requests[i])
    ensures i < |Next(h, s, a).value.requests|
    ensures OnCourse(h, Ledger(genesis, s.answers), Next(h, s, a).value.requests[i])
  {
    var ledger := Ledger(genesis, s.answers);
    assert Ahead(s) == [] && Chained(h, ledger) && s.memory == Load(h, s.db) by {
      hide Chained, Replay, Load, Holds, TasksAgree, WriterAgrees;
      Agreement(h, genesis, s);
    }
    LatestRow(h, genesis, s);
    ChainLength(h, ledger);
    PeaksAre(h, ledger);
    hide Inv;
    AnswerIsDue(h, ledger, s, a, i);
  }

  /** With the tip of `ledger` both in the database and in memory. */
  lemma {:induction false} AnswerIsDue(h: Hashes, ledger: seq<Block>, s: Store, a: Action, i: nat)
    requires ledger != [] && s.db.headers != [] && |s.memory.chain| == |ledger|
    requires s.db.headers[|s.db.headers| - 1] == ledger[|ledger| - 1].header
    requires ledger[|ledger| - 1].header.number == |ledger| - 1
    requires s.memory.chain[..|ledger| - 1] == Peaks(h, ledger)
    requires Safe(s, a) && Next(h, s, a).Some? && i < |s.requests|
    requires Holding(s.requests[i]) && OnCourse(h, ledger, s.requests[i])
    ensures i < |Next(h, s, a).value.requests|
    ensures OnCourse(h, ledger, Next(h, s, a).value.requests[i])
  {
    hide Write, Validation, NoGuards, Peaks;
  }

  lemma {:induction false} PeaksAre(h: Hashes, ledger: seq<Block>)
    requires Chained(h, ledger)
    ensures |Load(h, Replay(ledger).value).chain| == |ledger|
    ensures Load(h, Replay(ledger).value).chain[..|ledger| - 1] == Peaks(h, ledger)
  {
    HeaderTable(h, ledger);
    ChainLength(h, ledger);
    hide Chained, Replay, Commitments, HeadersOf;
    FrontOf(h, ledger);
  }

  lemma {:induction false} FrontOf(h: Hashes, ledger: seq<Block>)
    requires ledger != []
    ensures |Commitments(h, HeadersOf(ledger))| == |ledger|
    ensures Commitments(h, HeadersOf(ledger))[..|ledger| - 1] == Peaks(h, ledger)
  {
    CommitmentsLength(h, HeadersOf(ledger));
    CommitmentsLength(h, HeadersOf(ledger[..|ledger| - 1]));
    assert HeadersOf(ledger)[..|ledger| - 1] == HeadersOf(ledger[..|ledger| - 1]);
  }

  /** The request with the given index, made when `ledger` was accepted. */
  ghost predicate Serving(h: Hashes, genesis: Block, ledger: seq<Block>, number: Option<nat>,
                          s: Store, i: nat)
    requires ledger != []
  {
    var serving :=
      && Inv(h, genesis, s) && i < |s.requests| && s.requests[i].number == number
      && OnCourse(h, ledger, s.requests[i])
      && (Holding(s.requests[i]) ==> Ledger(genesis, s.answers) == ledger);
    serving
  }

  lemma ServingStarts(h: Hashes, genesis: Block, s: Store, number: Option<nat>)
    requires Inv(h, genesis, s) && Enabled(s, Ask(number))
    ensures Serving(h, genesis, Ledger(genesis, s.answers), number,
                    Asked(s, number), |s.requests|)
  {
    hide Inv, Enabled;
    AskedInv(h, genesis, s, number);
  }

  lemma {:induction false} ServingStays(h: Hashes, genesis: Block, ledger: seq<Block>,
                                        number: Option<nat>, s: Store, a: Action, i: nat)
    requires ledger != [] && Serving(h, genesis, ledger, number, s, i) && Safe(s, a)
    ensures Next(h, s, a).Some?
    ensures Serving(h, genesis, ledger, number, Next(h, s, a).value, i)
  {
    hide Inv, Safe, Next, OnCourse;
    StepInv(h, genesis, s, a);
    RequestKept(h, s, a, i);
    if Holding(s.requests[i]) {
      GuardsFreeze(h, genesis, s, a);
      RequestStep(h, genesis, s, a, i);
    }
  }

  /** Over the whole of its life, and whatever else happens meanwhile: a request for the current
      chain data is told that it is up to date exactly when it named the block that was the latest
      when it came in, and is else given that block's header with the peaks of the chain below it.
      No lookup of it fails. */
  lemma {:induction false} CurrentDataIsDue(h: Hashes, genesis: Block, s: Store,
                                            number: Option<nat>, trace: seq<Store>)
    requires Inv(h, genesis, s) && Enabled(s, Ask(number))
    requires Run(h, trace) && trace[0] == Asked(s, number)
    ensures Serving(h, genesis, Ledger(genesis, s.answers), number, trace[|trace| - 1],
                    |s.requests|)
    decreases |trace|
  {
    hide Inv, Next, Serving;
    if |trace| == 1 {
      ServingStarts(h, genesis, s, number);
    } else {
      var n := |trace| - 1;
      CurrentDataIsDue(h, genesis, s, number, trace[..n]);
      assert Step(h, trace[n - 1], trace[n]);
      var a :| Safe(trace[n - 1], a) && Next(h, trace[n - 1], a) == Some(trace[n]);
      ServingStays(h, genesis, Ledger(genesis, s.answers), number, trace[n - 1], a, |s.requests|);
    }
  }

  /** The header of such an answer commits to its peaks. */
  lemma {:induction false} DueIsConsistent(h: Hashes, ledger: seq<Block>, number: Option<nat>)
    requires Chained(h, ledger) && Due(h, ledger, number).Latest?
    ensures var d := Due(h, ledger, number);
      && |d.peaks| == d.header.number
      && (d.header.number > 0 ==> d.header.chainRoot == h.chain(d.peaks))
  {
    LatestLink(h, ledger);
    HeaderTable(h, ledger);
    CommitmentsLength(h, HeadersOf(ledger[..|ledger| - 1]));
  }
}
