/** A call of `apply_block` comes to an end: without new arrivals and with nobody giving up, every
    step takes it, the database tasks and the readers closer to the end of their work. */
module StoreProgress {
  import opened Prelude
  import opened Stores
  import opened StoreProtocol
  import opened StoreRuns

  /** How many steps are left at most for a call, counting those of the task it will spawn. */
  function PhaseRank(phase: Phase): nat {
    match phase
    case Checking => 8
    case Validating => 7
    case AwaitReady(_, _) => 4
    case AwaitSave(_, _) => 3
    case Locking(_, _) => 2
    case Granted(_, _) => 1
  }

  function CallRank(writer: Option<Writer>): nat {
    if writer.None? then 0 else PhaseRank(writer.value.phase)
  }

  function TaskRank(task: Task): nat {
    match task.progress
    case Starting => 2
    case Waiting(_) => 1
    case Finished(_) => 0
  }

  function TasksRank(tasks: seq<Task>): nat {
    if tasks == [] then 0
    else TasksRank(tasks[..|tasks| - 1]) + TaskRank(tasks[|tasks| - 1])
  }

  function RequestRank(r: Request): nat {
    match r.stage
    case Asking => 2
    case Fetching => 1
    case _ => 0
  }

  function RequestsRank(requests: seq<Request>): nat {
    if requests == [] then 0
    else RequestsRank(requests[..|requests| - 1]) + RequestRank(requests[|requests| - 1])
  }

  function WorkLeft(s: Store): nat {
    CallRank(s.writer) + TasksRank(s.tasks) + s.readers + RequestsRank(s.requests)
  }

  lemma {:induction false} TaskReplaced(tasks: seq<Task>, t: nat, task: Task)
    requires t < |tasks|
    ensures TasksRank(tasks[t := task]) + TaskRank(tasks[t]) == TasksRank(tasks) + TaskRank(task)
    decreases |tasks|
  {
    var n := |tasks| - 1;
    if t < n {
      TaskReplaced(tasks[..n], t, task);
      assert tasks[t := task][..n] == tasks[..n][t := task];
    } else {
      assert tasks[t := task][..n] == tasks[..n];
    }
  }

  lemma {:induction false} TaskSpawned(tasks: seq<Task>, task: Task)
    ensures TasksRank(tasks + [task]) == TasksRank(tasks) + TaskRank(task)
  {
    assert (tasks + [task])[..|tasks|] == tasks;
  }

  lemma {:induction false} RequestReplaced(requests: seq<Request>, i: nat, r: Request)
    requires i < |requests|
    ensures RequestsRank(requests[i := r]) + RequestRank(requests[i]) ==
            RequestsRank(requests) + RequestRank(r)
    decreases |requests|
  {
    var n := |requests| - 1;
    if i < n {
      RequestReplaced(requests[..n], i, r);
      assert requests[i := r][..n] == requests[..n][i := r];
    } else {
      assert requests[i := r][..n] == requests[..n];
    }
  }

  /** Dropping a permit is no work. */
  lemma ReturnRank(s: Store, error: Option<ApplyError>)
    requires s.writer.Some?
    ensures WorkLeft(Return(s, error)) == WorkLeft(s) - CallRank(s.writer)
  {
    var t := PermitHeld(s);
    if t.Some? && t.value < |s.tasks| {
      TaskReplaced(s.tasks, t.value, s.tasks[t.value].(permit := Dropped));
    }
    hide TasksRank, RequestsRank;
  }

  lemma CallMoves(h: Hashes, s: Store, a: Action)
    requires Enabled(s, a) && Next(h, s, a).Some?
    requires a.CheckHeader? || a.Validate? || a.Ready? || a.Saved? || a.Lock? || a.Finish?
    ensures WorkLeft(Next(h, s, a).value) < WorkLeft(s)
  {
    hide Validation, Write, TasksRank, RequestsRank, Return, NoGuards;
    forall e {
      ReturnRank(s, e);
    }
    match a
    case CheckHeader(answered) =>
    case Validate =>
      TaskSpawned(s.tasks, Task(s.writer.value.block, Starting, Pending));
    case Ready =>
    case Saved(ok) =>
    case Lock =>
      var t := s.writer.value.phase.task;
      TaskReplaced(s.tasks, t, s.tasks[t].(permit := Sent));
    case Finish =>
      var m := Next(h, s, a).value.memory;
      ReturnRank(s.(memory := m), None);
      FinishRank(h, s);
  }

  lemma FinishRank(h: Hashes, s: Store)
    requires Enabled(s, Finish) && AppliedToMemory(h, s).Some?
    ensures WorkLeft(AppliedToMemory(h, s).value) < WorkLeft(s)
  {
    hide TasksRank, RequestsRank, Return;
    var s' := AppliedToMemory(h, s).value;
    var u := s.writer.value.phase.update;
    ReturnRank(s, Some(DbUpdateFailed));
    ReturnRank(s.(memory := Memory(s.memory.nullifiers + u.nullifiers,
                                   s.memory.chain + [h.header(s.writer.value.block.header)],
                                   s.memory.accounts + u.accounts)), None);
  }

  lemma TaskMoves(h: Hashes, s: Store, a: Action)
    requires Enabled(s, a) && (a.TaskWrite? || a.TaskCommit? || a.TaskRollback?)
    ensures Next(h, s, a).Some? && WorkLeft(Next(h, s, a).value) < WorkLeft(s)
  {
    hide Validation, TasksRank, RequestsRank, Write;
    forall progress {
      TaskReplaced(s.tasks, a.task, s.tasks[a.task].(progress := progress));
    }
  }

  lemma ReaderMoves(h: Hashes, s: Store, a: Action)
    requires Enabled(s, a) && (a.ReleaseRead? || a.AskAgain? || a.FetchLatest?)
    requires Next(h, s, a).Some?
    ensures WorkLeft(Next(h, s, a).value) < WorkLeft(s)
  {
    hide Validation, Write, TasksRank, RequestsRank, NoGuards;
    if !a.ReleaseRead? {
      var i := a.request;
      forall stage {
        RequestReplaced(s.requests, i, s.requests[i].(stage := stage));
      }
    }
  }

  /** Every step takes work away. */
  lemma MovesDecrease(h: Hashes, s: Store, a: Action)
    requires Safe(s, a) && Moves(a) && Next(h, s, a).Some?
    ensures WorkLeft(Next(h, s, a).value) < WorkLeft(s)
  {
    hide Next, WorkLeft, Enabled;
    if a.TaskWrite? || a.TaskCommit? || a.TaskRollback? {
      TaskMoves(h, s, a);
    } else if a.ReleaseRead? || a.AskAgain? || a.FetchLatest? {
      ReaderMoves(h, s, a);
    } else {
      CallMoves(h, s, a);
    }
  }

  // ---------------------------------------------------------------------------------------------
  // Runs

  /** A run in which nobody arrives and nobody gives up. */
  ghost predicate Working(h: Hashes, trace: seq<Store>) {
    trace != [] && forall i :: 0 < i < |trace| ==> Works(h, trace[i - 1], trace[i])
  }

  ghost predicate Works(h: Hashes, s: Store, s': Store) {
    exists a :: Safe(s, a) && Moves(a) && Leads(h, s, a, s')
  }

  /** Such a run takes no more steps than there is work. */
  lemma {:induction false} WorkEnds(h: Hashes, trace: seq<Store>)
    requires Working(h, trace)
    ensures |trace| - 1 + WorkLeft(trace[|trace| - 1]) <= WorkLeft(trace[0])
    decreases |trace|
  {
    hide WorkLeft, Enabled, Moves, Next;
    if |trace| > 1 {
      var n := |trace| - 1;
      WorkEnds(h, trace[..n]);
      assert Works(h, trace[n - 1], trace[n]);
      var a :| Safe(trace[n - 1], a) && Moves(a) && Leads(h, trace[n - 1], a, trace[n]);
      MovesDecrease(h, trace[n - 1], a);
    }
  }

  predicate NobodyAsks(s: Store) {
    forall i :: 0 <= i < |s.requests| ==> !s.requests[i].stage.Asking?
  }

  lemma StillNobody(h: Hashes, s: Store, a: Action)
    requires Safe(s, a) && Moves(a) && Next(h, s, a).Some? && NobodyAsks(s)
    ensures NobodyAsks(Next(h, s, a).value)
  {
    hide Write, Validation;
  }

  ghost predicate Leaves(h: Hashes, s: Store, s': Store) {
    exists trace :: Working(h, trace) && trace[0] == s && trace[|trace| - 1] == s'
  }

  lemma LeavesAfter(h: Hashes, s: Store, s1: Store, s': Store)
    requires Works(h, s, s1) && Leaves(h, s1, s')
    ensures Leaves(h, s, s')
  {
    var rest :| Working(h, rest) && rest[0] == s1 && rest[|rest| - 1] == s';
    var trace := [s] + rest;
    hide Works;
    forall i | 0 < i < |trace| ensures Works(h, trace[i - 1], trace[i]) {
      if i > 1 {
        assert trace[i - 1] == rest[i - 2] && trace[i] == rest[i - 1];
      }
    }
    assert Working(h, trace) && trace[0] == s && trace[|trace| - 1] == s';
  }

  /** From every state the call can be brought to an end by the steps of those at work: it is
      answered, or stuck behind requests that wait for it, which cannot be if none of them waits
      for a second guard. With `WorkEnds` no order of the steps can put that off. */
  lemma {:induction false} CallEnds(h: Hashes, genesis: Block, s: Store)
    requires Inv(h, genesis, s)
    ensures exists s' :: Leaves(h, s, s') && Inv(h, genesis, s') &&
                         (s'.writer.None? || Stuck(s')) && (NobodyAsks(s) ==> s'.writer.None?)
    decreases WorkLeft(s)
  {
    hide Inv, Next, WorkLeft, Safe, Moves;
    if s.writer.None? || Stuck(s) {
      assert Working(h, [s]);
      assert Leaves(h, s, s);
      assert Stuck(s) ==> !NobodyAsks(s);
    } else {
      HandshakeNeverStuck(h, genesis, s);
      var a :| Safe(s, a) && Moves(a);
      SafeIsEnabled(s, a);
      StepInv(h, genesis, s, a);
      var s1 := Next(h, s, a).value;
      assert Leads(h, s, a, s1) && Works(h, s, s1);
      MovesDecrease(h, s, a);
      CallEnds(h, genesis, s1);
      var s' :| Leaves(h, s1, s') && Inv(h, genesis, s') &&
                (s'.writer.None? || Stuck(s')) && (NobodyAsks(s1) ==> s'.writer.None?);
      hide Stuck, Works, Leaves;
      LeavesAfter(h, s, s1, s');
      if NobodyAsks(s) {
        StillNobody(h, s, a);
      }
    }
  }

  lemma SafeIsEnabled(s: Store, a: Action)
    requires Safe(s, a)
    ensures Enabled(s, a)
  {
  }
}
