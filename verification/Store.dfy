/** The store's `apply_block` handshake as a state machine.

    One call of `apply_block`, the database task it spawns and any number of readers interleave.
    A step is what one of them does between two awaits. The database task may outlive the call
    that spawned it, so tasks are kept in a list and only the writer mutex is exclusive. Tables and
    trees are maps; `Hashes` stands for the commitments. */
module Stores {
  import opened Prelude

  datatype Header = Header(
    number: nat, prev: nat, chainRoot: nat, nullifierRoot: nat, accountRoot: nat, noteRoot: nat,
    txRoot: nat, extra: nat)

  /** An output note; a block may not contain `partial` ones. */
  datatype Note = Note(id: nat, partial: bool)

  datatype Block = Block(
    header: Header, txs: seq<nat>, nullifiers: seq<nat>, accounts: seq<(nat, nat)>,
    notes: seq<Note>)

  datatype Hashes = Hashes(
    header: Header -> nat, chain: seq<nat> -> nat, nullifiers: map<nat, nat> -> nat,
    accounts: map<nat, nat> -> nat, notes: seq<Note> -> nat, txs: seq<nat> -> nat,
    prefix: nat -> nat)

  // ---------------------------------------------------------------------------------------------
  // The database

  /** The committed tables: headers in the order of their numbers, the block in which each
      nullifier was spent, account commitments, and the latest block each note was created in. */
  datatype Database = Database(
    headers: seq<Header>, nullifiers: map<nat, nat>, accounts: map<nat, nat>,
    notes: map<nat, nat>)

  function InsertHeader(headers: seq<Header>, h: Header): seq<Header> {
    if headers == [] || headers[|headers| - 1].number < h.number then headers + [h]
    else InsertHeader(headers[..|headers| - 1], h) + [headers[|headers| - 1]]
  }

  function Upsert(accounts: map<nat, nat>, updates: seq<(nat, nat)>): map<nat, nat> {
    if updates == [] then accounts else
      var u := updates[|updates| - 1];
      Upsert(accounts, updates[..|updates| - 1])[u.0 := u.1]
  }

  function NoteIds(notes: seq<Note>): set<nat> {
    set n | n in notes :: n.id
  }

  function CreatedAt(notes: seq<Note>, number: nat): map<nat, nat> {
    map n | n in NoteIds(notes) :: number
  }

  function SpentAt(ns: seq<nat>, number: nat): map<nat, nat> {
    map n | n in Elems(ns) :: number
  }

  /** Writing a block inside a transaction. The primary keys of headers and nullifiers make it
      fail on a number that is taken and on a nullifier that is spent or listed twice. */
  ghost function Write(db: Database, b: Block): Option<Database> {
    if exists h :: h in db.headers && h.number == b.header.number then None
    else if !NoDup(b.nullifiers) || !(Elems(b.nullifiers) !! db.nullifiers.Keys) then None
    else Some(Database(
      InsertHeader(db.headers, b.header),
      db.nullifiers + SpentAt(b.nullifiers, b.header.number),
      Upsert(db.accounts, b.accounts),
      db.notes + CreatedAt(b.notes, b.header.number)))
  }

  // ---------------------------------------------------------------------------------------------
  // Memory

  datatype Memory = Memory(nullifiers: map<nat, nat>, chain: seq<nat>, accounts: map<nat, nat>)

  function Commitments(h: Hashes, headers: seq<Header>): seq<nat> {
    if headers == [] then [] else
      Commitments(h, headers[..|headers| - 1]) + [h.header(headers[|headers| - 1])]
  }

  /** What `State::load` builds from the committed tables. */
  function Load(h: Hashes, db: Database): Memory {
    Memory(db.nullifiers, Commitments(h, db.headers), db.accounts)
  }

  /** Mutations of the two trees, computed against the roots the trees had. */
  datatype Update = Update(
    nullifierRoot: nat, nullifiers: map<nat, nat>, accountRoot: nat, accounts: map<nat, nat>)

  function UpdateFor(h: Hashes, m: Memory, b: Block): Update {
    Update(h.nullifiers(m.nullifiers), SpentAt(b.nullifiers, b.header.number),
           h.accounts(m.accounts), Upsert(map[], b.accounts))
  }

  /** An account may not have the same prefix as another one. */
  predicate PrefixTaken(h: Hashes, accounts: map<nat, nat>, updates: map<nat, nat>) {
    exists a, b :: a in updates.Keys && b in accounts.Keys + updates.Keys &&
                   a != b && h.prefix(a) == h.prefix(b)
  }

  // ---------------------------------------------------------------------------------------------
  // Processes

  datatype ApplyError =
    | ConcurrentWrite | InvalidTxCommitment | DatabaseFailed | HeaderEmpty | InvalidNumber
    | InvalidPrevCommitment | DuplicatedNullifiers(spent: set<nat>) | InvalidChainCommitment
    | InvalidNullifierRoot | DuplicateAccountIdPrefix | InvalidAccountRoot | InvalidNoteRoot
    | InvalidNoteType | ClosedChannel | SaveFailed | DbUpdateFailed | Cancelled

  datatype Answer = Answer(block: Block, error: Option<ApplyError>)

  /** The caller's end of the channel that permits the commit. */
  datatype Permit = Pending | Sent | Dropped

  datatype Progress = Starting | Waiting(written: Database) | Finished(committed: bool)

  datatype Task = Task(block: Block, progress: Progress, permit: Permit)

  /** Where the call holding the writer mutex is suspended. The write lock on memory is held
      while `Granted`. */
  datatype Phase =
    | Checking
    | Validating
    | AwaitReady(task: nat, update: Update)
    | AwaitSave(task: nat, update: Update)
    | Locking(task: nat, update: Update)
    | Granted(task: nat, update: Update)

  datatype Writer = Writer(block: Block, phase: Phase)

  /** What a request for the current chain data is told. */
  datatype CurrentData =
    | UpToDate | Latest(header: Header, peaks: seq<nat>) | InvalidPeaks | Unavailable

  /** Such a request holds a read guard until it is answered or dropped. While `Asking` it waits for
      a second one, to look up the latest block number. */
  datatype Stage = Asking | Fetching | Answered(data: CurrentData) | Gone

  datatype Request = Request(number: Option<nat>, stage: Stage)

  /** `readers` counts the guards of all other readers. */
  datatype Store = Store(
    db: Database, open: Option<nat>, tasks: seq<Task>, memory: Memory,
    writer: Option<Writer>, readers: nat, requests: seq<Request>, answers: seq<Answer>)

  datatype Action =
    | Submit(block: Block)
    | CheckHeader(answered: bool)
    | Validate
    | Ready
    | Saved(ok: bool)
    | Lock
    | Finish
    | Cancel
    | TaskWrite(task: nat, ok: bool)
    | TaskCommit(task: nat, ok: bool)
    | TaskRollback(task: nat)
    | AcquireRead
    | ReleaseRead
    | Ask(number: Option<nat>)
    | AskAgain(request: nat)
    | FetchLatest(request: nat, answered: bool)
    | DropRequest(request: nat)

  predicate WriteLocked(s: Store) {
    s.writer.Some? && s.writer.value.phase.Granted?
  }

  /** The lock prefers writers: a reader that arrives now has to wait. */
  predicate WriterQueued(s: Store) {
    s.writer.Some? && s.writer.value.phase.Locking?
  }

  predicate Holding(r: Request) {
    r.stage.Asking? || r.stage.Fetching?
  }

  predicate NoGuards(s: Store) {
    s.readers == 0 && forall i :: 0 <= i < |s.requests| ==> !Holding(s.requests[i])
  }

  predicate CanRead(s: Store) {
    !WriteLocked(s) && !WriterQueued(s)
  }

  function SetStage(s: Store, i: nat, stage: Stage): Store
    requires i < |s.requests|
  {
    s.(requests := s.requests[i := s.requests[i].(stage := stage)])
  }

  /** The database task whose permit the current call still holds. */
  function PermitHeld(s: Store): Option<nat> {
    if s.writer.None? then None else
    match s.writer.value.phase
    case AwaitReady(t, _) => Some(t)
    case AwaitSave(t, _) => Some(t)
    case Locking(t, _) => Some(t)
    case _ => None
  }

  function SetTask(s: Store, t: nat, task: Task): Store {
    if t < |s.tasks| then s.(tasks := s.tasks[t := task]) else s
  }

  function GoTo(s: Store, phase: Phase): Store
    requires s.writer.Some?
  {
    s.(writer := Some(s.writer.value.(phase := phase)))
  }

  /** The current call returns: it drops the permit it has not used, and its locks. */
  function Return(s: Store, error: Option<ApplyError>): Store
    requires s.writer.Some?
  {
    var t := PermitHeld(s);
    var s' :=
      if t.Some? && t.value < |s.tasks|
      then SetTask(s, t.value, s.tasks[t.value].(permit := Dropped)) else s;
    s'.(writer := None, answers := s.answers + [Answer(s.writer.value.block, error)])
  }

  /** The checks made under the read lock and on the block itself, in order. */
  function Validation(h: Hashes, m: Memory, b: Block): Outcome<ApplyError> {
    var spent := set n | n in b.nullifiers && n in m.nullifiers;
    var u := UpdateFor(h, m, b);
    if spent != {} then Fail(DuplicatedNullifiers(spent))
    else if h.chain(m.chain) != b.header.chainRoot then Fail(InvalidChainCommitment)
    else if h.nullifiers(m.nullifiers + u.nullifiers) != b.header.nullifierRoot then
      Fail(InvalidNullifierRoot)
    else if PrefixTaken(h, m.accounts, u.accounts) then Fail(DuplicateAccountIdPrefix)
    else if h.accounts(m.accounts + u.accounts) != b.header.accountRoot then
      Fail(InvalidAccountRoot)
    else if h.notes(b.notes) != b.header.noteRoot then Fail(InvalidNoteRoot)
    else if exists n :: n in b.notes && n.partial then Fail(InvalidNoteType)
    else Pass
  }

  /** When a step can happen: who waits for what. */
  predicate Enabled(s: Store, a: Action) {
    match a
    case Submit(_) => true
    case CheckHeader(_) => s.writer.Some? && s.writer.value.phase.Checking?
    case Validate => s.writer.Some? && s.writer.value.phase.Validating?
    case Ready =>
      && s.writer.Some? && s.writer.value.phase.AwaitReady?
      && s.writer.value.phase.task < |s.tasks|
      && !s.tasks[s.writer.value.phase.task].progress.Starting?
    case Saved(_) => s.writer.Some? && s.writer.value.phase.AwaitSave?
    case Lock =>
      && s.writer.Some? && s.writer.value.phase.Locking?
      && s.writer.value.phase.task < |s.tasks| && NoGuards(s)
    case Finish =>
      && WriteLocked(s) && s.writer.value.phase.task < |s.tasks|
      && s.tasks[s.writer.value.phase.task].progress.Finished?
    case Cancel => s.writer.Some?
    case TaskWrite(t, ok) =>
      t < |s.tasks| && s.tasks[t].progress.Starting? && (ok ==> s.open.None?)
    case TaskCommit(t, _) =>
      t < |s.tasks| && s.tasks[t].progress.Waiting? && s.tasks[t].permit.Sent?
    case TaskRollback(t) =>
      t < |s.tasks| && s.tasks[t].progress.Waiting? && s.tasks[t].permit.Dropped?
    case AcquireRead => CanRead(s)
    case ReleaseRead => s.readers > 0
    case Ask(_) => CanRead(s)
    case AskAgain(i) => i < |s.requests| && s.requests[i].stage.Asking? && CanRead(s)
    case FetchLatest(i, _) => i < |s.requests| && s.requests[i].stage.Fetching?
    case DropRequest(i) => i < |s.requests| && Holding(s.requests[i])
  }

  /** One step; `None` is an `expect` that fires. */
  ghost function Next(h: Hashes, s: Store, a: Action): Option<Store>
    requires Enabled(s, a)
  {
    match a
    case Submit(b) =>
      if s.writer.Some? then
        Some(s.(answers := s.answers + [Answer(b, Some(ConcurrentWrite))]))
      else
        var s' := s.(writer := Some(Writer(b, Checking)));
        Some(if h.txs(b.txs) != b.header.txRoot then Return(s', Some(InvalidTxCommitment)) else s')
    case CheckHeader(answered) => Some(Headed(h, s, answered))
    case Validate => Some(Validated(h, s))
    case Ready =>
      var t := s.writer.value.phase.task;
      Some(if s.tasks[t].progress.Waiting? then GoTo(s, AwaitSave(t, s.writer.value.phase.update))
           else Return(s, Some(ClosedChannel)))
    case Saved(ok) =>
      Some(if ok then GoTo(s, Locking(s.writer.value.phase.task, s.writer.value.phase.update))
           else Return(s, Some(SaveFailed)))
    case Lock => Some(Locked(h, s))
    case Finish => AppliedToMemory(h, s)
    case Cancel => Some(Return(s, Some(Cancelled)))
    case TaskWrite(t, ok) => Some(Written(s, t, ok))
    case TaskCommit(t, ok) => Some(Committed(s, t, ok))
    case TaskRollback(t) => Some(RolledBack(s, t))
    case AcquireRead => Some(s.(readers := s.readers + 1))
    case ReleaseRead => Some(s.(readers := s.readers - 1))
    case Ask(number) => Some(Asked(s, number))
    case AskAgain(i) => AskedAgain(s, i)
    case FetchLatest(i, answered) => Fetched(s, i, answered)
    case DropRequest(i) => Some(SetStage(s, i, Gone))
  }

  /** A new request takes a guard, and wants a second one if it was given a number. */
  function Asked(s: Store, number: Option<nat>): Store {
    s.(requests := s.requests + [Request(number, if number.Some? then Asking else Fetching)])
  }

  /** With the second guard, which is released right away, the request compares the number it was
      given with the latest one. */
  function AskedAgain(s: Store, i: nat): Option<Store>
    requires Enabled(s, AskAgain(i))
  {
    if s.memory.chain == [] then None
    else Some(SetStage(s, i, if s.requests[i].number == Some(|s.memory.chain| - 1)
                             then Answered(UpToDate) else Fetching))
  }

  /** The latest header from the database and the peaks of the chain below it from memory. */
  function Fetched(s: Store, i: nat, answered: bool): Option<Store>
    requires Enabled(s, FetchLatest(i, answered))
  {
    if !answered then Some(SetStage(s, i, Answered(Unavailable)))
    else if s.db.headers == [] then None
    else
      var latest := s.db.headers[|s.db.headers| - 1];
      Some(SetStage(s, i, Answered(
        if latest.number <= |s.memory.chain|
        then Latest(latest, s.memory.chain[..latest.number]) else InvalidPeaks)))
  }

  /** The block must extend the latest committed one. */
  function Headed(h: Hashes, s: Store, answered: bool): Store
    requires Enabled(s, CheckHeader(answered))
  {
    var b := s.writer.value.block;
    if !answered then Return(s, Some(DatabaseFailed))
    else if s.db.headers == [] then Return(s, Some(HeaderEmpty))
    else
      var latest := s.db.headers[|s.db.headers| - 1];
      if b.header.number != latest.number + 1 then Return(s, Some(InvalidNumber))
      else if b.header.prev != h.header(latest) then Return(s, Some(InvalidPrevCommitment))
      else GoTo(s, Validating)
  }

  /** Validates against memory and spawns the database task. */
  function Validated(h: Hashes, s: Store): Store
    requires Enabled(s, Validate)
  {
    var b := s.writer.value.block;
    var v := Validation(h, s.memory, b);
    if v.Fail? then Return(s, Some(v.error))
    else
      GoTo(s.(tasks := s.tasks + [Task(b, Starting, Pending)]),
           AwaitReady(|s.tasks|, UpdateFor(h, s.memory, b)))
  }

  /** Takes the write lock, compares the roots again and permits the commit. */
  function Locked(h: Hashes, s: Store): Store
    requires Enabled(s, Lock)
  {
    var t, u := s.writer.value.phase.task, s.writer.value.phase.update;
    if h.nullifiers(s.memory.nullifiers) != u.nullifierRoot ||
       h.accounts(s.memory.accounts) != u.accountRoot
    then Return(s, Some(ConcurrentWrite))
    else if s.tasks[t].progress.Finished? then Return(s, Some(DbUpdateFailed))
    else GoTo(SetTask(s, t, s.tasks[t].(permit := Sent)), Granted(t, u))
  }

  /** Updates memory once the database has committed. Applying mutations to a tree whose root is
      not the one they were computed against fails. */
  function AppliedToMemory(h: Hashes, s: Store): Option<Store>
    requires Enabled(s, Finish)
  {
    var t, u := s.writer.value.phase.task, s.writer.value.phase.update;
    if !s.tasks[t].progress.committed then Some(Return(s, Some(DbUpdateFailed)))
    else if h.nullifiers(s.memory.nullifiers) != u.nullifierRoot ||
            h.accounts(s.memory.accounts) != u.accountRoot
    then None
    else
      Some(Return(s.(memory := Memory(s.memory.nullifiers + u.nullifiers,
                                      s.memory.chain + [h.header(s.writer.value.block.header)],
                                      s.memory.accounts + u.accounts)), None))
  }

  /** A database task opens the database, writes its block and asks for the permit. */
  ghost function Written(s: Store, t: nat, ok: bool): Store
    requires Enabled(s, TaskWrite(t, ok))
  {
    var task := s.tasks[t];
    var written := Write(s.db, task.block);
    if ok && written.Some? then
      SetTask(s, t, task.(progress := Waiting(written.value))).(open := Some(t))
    else SetTask(s, t, task.(progress := Finished(false)))
  }

  function Committed(s: Store, t: nat, ok: bool): Store
    requires Enabled(s, TaskCommit(t, ok))
  {
    var task := s.tasks[t];
    var s' := SetTask(s, t, task.(progress := Finished(ok))).(open := None);
    if ok then s'.(db := task.progress.written) else s'
  }

  function RolledBack(s: Store, t: nat): Store
    requires Enabled(s, TaskRollback(t))
  {
    SetTask(s, t, s.tasks[t].(progress := Finished(false))).(open := None)
  }

  // ---------------------------------------------------------------------------------------------
  // Runs

  /** Whether dropping the current call now leaves nothing half done: it does not hold the write
      lock, or its database task has failed. */
  predicate MayDrop(s: Store) {
    WriteLocked(s) ==>
      s.writer.value.phase.task < |s.tasks| &&
      s.tasks[s.writer.value.phase.task].progress == Finished(false)
  }

  predicate Safe(s: Store, a: Action) {
    Enabled(s, a) && (a.Cancel? ==> MayDrop(s))
  }

  ghost predicate Run(h: Hashes, trace: seq<Store>) {
    && trace != []
    && forall i :: 0 < i < |trace| ==> Step(h, trace[i - 1], trace[i])
  }

  ghost predicate Leads(h: Hashes, s: Store, a: Action, s': Store)
    requires Enabled(s, a)
  {
    Next(h, s, a) == Some(s')
  }

  ghost predicate Step(h: Hashes, s: Store, s': Store) {
    exists a :: Safe(s, a) && Leads(h, s, a, s')
  }
}
