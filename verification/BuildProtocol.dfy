/**
BuildQueue.run and BuildQueue.cancel as a state machine.

Several processes share the two tables.  Inside a process, the task objects are
shared by its threads and protected by a guard (a lock).  One step is one database
transaction, one read or write of a task object, or one call or return of the
builder; every other thread and process may act between two steps, and a process
may die at any point.  Which steps hold the guard is explicit, so that an
interleaving the lock forbids is impossible here and no other is.
*/
module BuildProtocol {
  import opened Wrappers
  import opened BuildTasks

  /** The places in `run` that ask `_cancel_pending`. */
  datatype Site = AfterFirstTry | AfterWait | BeforeBuild | AfterBuild | BuildRefused | SuccessRefused

  /** What a run does next. */
  datatype RunPc =
    | PersistQueued                   // write the new generation's row
    | FirstTry                        // acquire with timeout 0
    | Check(site: Site)               // take the guard, look at the task object
    | CheckRow(site: Site)            // guard held: is_cancel_requested
    | CheckReread(site: Site)         // guard held, row asks for a cancel: read it again
    | Settle(site: Site)              // guard held: _finish_task_local(task, "cancelled")
    | Requeue                         // _mark_queued, memory
    | PersistRequeued                 // _mark_queued, row
    | Waiting                         // the acquire loop
    | Granted(n: nat)                 // the slot row is committed, `slot` not assigned yet
    | TimedOut                        // _mark_timeout, memory (without the guard)
    | PersistTimedOut                 // _mark_timeout, row
    | PersistBuilding                 // the row must become building before the builder is called
    | Ready                           // it did
    | Executing                       // inside builder(instance_id)
    | PersistSuccess                  // the row must become success before the result is returned
    | BuilderCancelled                // except BuildCancelled: memory
    | PersistBuilderCancelled         // except BuildCancelled: row
    | Failing                         // except Exception: memory
    | PersistFailing(status: Status)  // except Exception, guard held: row
    | ReleaseSlot(ok: bool)           // finally: release(slot); ok when a result is on its way out
    | ReleaseRest(ok: bool)           // finally: release_instance_slots
    | Returned                        // the builder's result has been returned
    | Raised                          // an exception has been raised

  /** One call of `run` with its task object.  `asked` stands for "cancel_requested_at is
      not None".  The last three fields record the past: whether the builder has been
      called; whether a slot row was left behind; and whether the run was interrupted before
      its last row write, or that write failed. */
  datatype Run = Run(pid: Pid, inst: Instance, mem: Status, asked: bool, slot: Option<nat>, pc: RunPc,
                     began: bool, leaked: bool, unsaved: bool)

  /** What the environment contributes to a step. */
  datatype Choice =
    | Go(probe: set<Pid>)      // nothing goes wrong; probe: the pids seen alive
    | DbFails                  // the database call fails
    | Raise                    // an ordinary exception
    | Interrupt                // an exception that is not an Exception, such as KeyboardInterrupt
    | BuilderCancels           // the builder raises BuildCancelled
    | RecordWorker(w: Worker)  // the builder writes its worker into the row
    | ClearWorker
    | TimesOut
    | SeesCancel               // the acquire loop's own look at the row

  predicate TakesGuard(pc: RunPc) {
    pc.Check? || pc.Requeue? || pc.BuilderCancelled? || pc.Failing?
  }

  predicate HoldsGuard(pc: RunPc) {
    pc.CheckRow? || pc.CheckReread? || pc.Settle? || pc.PersistFailing?
  }

  predicate Finished(pc: RunPc) {
    pc.Returned? || pc.Raised?
  }

  predicate Ending(pc: RunPc) {
    pc.ReleaseSlot? || pc.ReleaseRest? || Finished(pc)
  }

  /** What an exception that is not an Exception does: the `except` clauses are skipped, the
      `finally` clause is not, unless it is in the `finally` clause or before the `try`.
      A slot that is granted but not assigned is not given back. */
  function Interrupted(r: Run): Option<Run> {
    match r.pc
    case PersistQueued => Some(r.(pc := Raised, unsaved := true))
    case Granted(_) => Some(r.(pc := ReleaseSlot(false), unsaved := true, leaked := true))
    case ReleaseSlot(_) => Some(r.(pc := Raised, slot := None, leaked := r.leaked || r.slot.Some?))
    case ReleaseRest(_) => Some(r.(pc := Raised))
    case Returned => None
    case Raised => None
    case _ => Some(r.(pc := ReleaseSlot(false), unsaved := true))
  }

  /** Where an ordinary exception can come from: the gate, a row read, an event, the builder. */
  predicate MayRaise(pc: RunPc) {
    pc in {FirstTry, Waiting, Ready, Executing, Settle(BeforeBuild)} || pc.CheckRow? || pc.CheckReread?
  }

  function RowOf(r: Run, t: Token, s: Status): TaskRow {
    TaskRow(t, s, r.pid, NO_WORKER, r.asked)
  }

  /** _persist_task: the written rows and whether it returned True; failures are caught. */
  function Persist(rows: Rows, r: Run, t: Token, s: Status, replace: bool, c: Choice): (Rows, bool) {
    if c.DbFails? then (rows, false) else Upsert(rows, r.inst, RowOf(r, t, s), replace)
  }

  /** Where `_cancel_pending` answering False leads. */
  function NotPending(r: Run, site: Site): Run {
    match site
    case AfterFirstTry => r.(pc := Requeue)
    case AfterWait => r.(pc := TimedOut)
    case BeforeBuild => r.(mem := Building, pc := PersistBuilding)
    case AfterBuild => r.(mem := Success, pc := PersistSuccess)
    case _ => r.(pc := Settle(site))   // its answer is ignored
  }

  /** What a run with task `r` and token `t` can do to itself and to the tables. */
  function RunNext(r: Run, t: Token, db: Tables, k: nat, c: Choice): Option<(Run, Tables)> {
    if c.Interrupt? then
      (match Interrupted(r)
       case None => None
       case Some(r') => Some((r', db)))
    else if c.Raise? && MayRaise(r.pc) then Some((r.(pc := Failing), db))
    else if c.BuilderCancels? && r.pc.Executing? then Some((r.(pc := BuilderCancelled), db))
    else if c.RecordWorker? && r.pc.Executing? then
      Some((r, db.(rows := Update(db.rows, r.inst, t, Change(None, c.w, false, false)).0)))
    else if c.ClearWorker? && r.pc.Executing? then
      Some((r, db.(rows := Update(db.rows, r.inst, t, Change(None, NO_WORKER, false, true)).0)))
    else if c.TimesOut? && r.pc.Waiting? then Some((r.(pc := Check(AfterWait)), db))
    else if c.SeesCancel? && r.pc.Waiting? && CancelRequested(db.rows, r.inst, t) then
      Some((r.(pc := Check(AfterWait)), db))
    else if c.Go? || c.DbFails? then RunGoes(r, t, db, k, c)
    else None
  }

  function RunGoes(r: Run, t: Token, db: Tables, k: nat, c: Choice): Option<(Run, Tables)>
    requires c.Go? || c.DbFails?
  {
    if Guarded(r.pc) then RunSettles(r, t, db, c)
    else if Queueing(r.pc) then RunQueues(r, t, db, k, c)
    else RunBuilds(r, t, db, c)
  }

  predicate Guarded(pc: RunPc) {
    (TakesGuard(pc) && !pc.Requeue?) || HoldsGuard(pc) || pc.PersistBuilderCancelled?
  }

  predicate Queueing(pc: RunPc) {
    || pc.PersistQueued? || pc.FirstTry? || pc.Requeue? || pc.PersistRequeued? || pc.Waiting? || pc.TimedOut?
    || pc.PersistTimedOut? || pc.Granted?
  }

  /** Getting a slot. */
  function RunQueues(r: Run, t: Token, db: Tables, k: nat, c: Choice): Option<(Run, Tables)>
    requires c.Go? || c.DbFails?
  {
    match r.pc
    case PersistQueued =>
      Some((r.(pc := FirstTry), db.(rows := Persist(db.rows, r, t, Queued, true, c).0)))
    case FirstTry =>
      if c.DbFails? then Some((r.(pc := Check(AfterFirstTry)), db)) else
      var (db', slot) := TryAcquire(db, c.probe, k, r.inst, r.pid);
      Some((r.(pc := if slot.Some? then Granted(slot.value) else Check(AfterFirstTry)), db'))
    case Requeue =>
      if r.mem == Cancelled then Some((r.(pc := Waiting), db))
      else Some((r.(mem := Queued, pc := PersistRequeued), db))
    case PersistRequeued =>
      Some((r.(pc := Waiting), db.(rows := Persist(db.rows, r, t, Queued, false, c).0)))
    case Waiting =>
      if c.DbFails? then Some((r, db)) else
      var (db', slot) := TryAcquire(db, c.probe, k, r.inst, r.pid);
      Some((if slot.Some? then r.(pc := Granted(slot.value)) else r, db'))
    case Granted(n) =>
      Some((r.(slot := Some(n), pc := Check(BeforeBuild)), db))
    case TimedOut =>
      Some((r.(mem := Failed, pc := PersistTimedOut), db))
    case PersistTimedOut =>
      Some((r.(pc := Failing), db.(rows := Persist(db.rows, r, t, Failed, false, c).0)))
    case _ => None
  }

  /** Asking whether a cancel is pending, and ending without a result. */
  function RunSettles(r: Run, t: Token, db: Tables, c: Choice): Option<(Run, Tables)>
    requires c.Go? || c.DbFails?
  {
    match r.pc
    case Check(site) =>
      if r.mem in {Cancelled, Cancelling} then Some((r.(pc := Settle(site)), db))
      else Some((r.(pc := CheckRow(site)), db))
    case CheckRow(site) =>
      if CancelRequested(db.rows, r.inst, t) then Some((r.(pc := CheckReread(site)), db))
      else Some((NotPending(r, site), db))
    case CheckReread(site) =>
      var mem := if r.inst in db.rows && db.rows[r.inst].status == Cancelling then Cancelling else Cancelled;
      Some((r.(mem := mem, asked := true, pc := Settle(site)), db))
    case Settle(site) =>
      Some((r.(mem := Cancelled, pc := Failing), db.(rows := Persist(db.rows, r, t, Cancelled, false, c).0)))
    case BuilderCancelled =>
      Some((r.(mem := Cancelled, pc := PersistBuilderCancelled), db))
    case PersistBuilderCancelled =>
      Some((r.(pc := ReleaseSlot(false), unsaved := c.DbFails?),
            db.(rows := Persist(db.rows, r, t, Cancelled, false, c).0)))
    case Failing =>
      var mem := if r.mem in {Cancelled, Cancelling} then Cancelled else Failed;
      Some((r.(mem := mem, pc := PersistFailing(mem)), db))
    case PersistFailing(status) =>
      Some((r.(pc := ReleaseSlot(false), unsaved := c.DbFails?),
            db.(rows := Persist(db.rows, r, t, status, false, c).0)))
    case _ => None
  }

  /** The builder, the result, and the slot. */
  function RunBuilds(r: Run, t: Token, db: Tables, c: Choice): Option<(Run, Tables)>
    requires c.Go? || c.DbFails?
  {
    match r.pc
    case PersistBuilding =>
      var (rows, ok) := Persist(db.rows, r, t, Building, false, c);
      Some((r.(pc := if ok then Ready else Check(BuildRefused)), db.(rows := rows)))
    case Ready =>
      Some((r.(began := true, pc := Executing), db))
    case Executing =>
      Some((r.(pc := Check(AfterBuild)), db))
    case PersistSuccess =>
      var (rows, ok) := Persist(db.rows, r, t, Success, false, c);
      Some((r.(pc := if ok then ReleaseSlot(true) else Check(SuccessRefused)), db.(rows := rows)))
    case ReleaseSlot(ok) =>
      if r.slot.None? then Some((r.(pc := ReleaseRest(ok)), db))
      else if c.DbFails? then Some((r.(slot := None, leaked := true, pc := Raised), db))
      else Some((r.(slot := None, pc := ReleaseRest(ok)), db.(slots := Release(db.slots, r.slot.value, r.pid))))
    case ReleaseRest(ok) =>
      if r.mem !in {Cancelled, CancelFailed} then Some((r.(pc := if ok then Returned else Raised), db))
      else if c.DbFails? then Some((r.(pc := Raised), db))
      else Some((r.(pc := if ok then Returned else Raised, leaked := false),
                 db.(slots := ReleaseInstance(db.slots, r.inst, r.pid))))
    case _ => None
  }

  // ---- cancel -------------------------------------------------------------------

  datatype Outcome = OutCancelled | OutCancelFailed | OutAlreadyDone | OutNoop

  /** What a call of `cancel` does next.  The first group is the path with a task object in
      this process, the second the path through another process's row. */
  datatype CancelPc =
    | Enter                                   // take the guard, look the task up
    | PersistQueuedCancel(t: Token)           // guard held, memory already cancelled
    | PersistCancelling(t: Token)             // guard held, memory already cancelling
    | AwaitRun(t: Token)                      // signal the builder, wait, look the task up again
    | StillRunning(t: Token)                  // timed out: second guarded look
    | PersistCancelFailed(t: Token)
    | ReadRow
    | CancelQueuedRow(t: Token)
    | CancelActiveRow(t: Token, owner: Pid)
    | ProbeOwner(t: Token, owner: Pid)
    | CancelOrphanRow(t: Token)
    | AwaitRow
    | RereadRow
    | FailRow(t: Token)
    | Replied(outcome: Outcome, about: Option<Token>, crossProcess: bool, written: bool)
    | Aborted                                 // the call raised

  /** One call of `cancel`.  In a reply, `about` is the generation whose status it read
      last, and `written` says, across processes, whether the row was seen to be, or
      made, what the reply claims. */
  datatype Cancel = Cancel(pid: Pid, inst: Instance, pc: CancelPc)

  predicate CancelTakesGuard(pc: CancelPc) {
    pc.Enter? || pc.AwaitRun? || pc.StillRunning?
  }

  predicate CancelHoldsGuard(pc: CancelPc) {
    pc.PersistQueuedCancel? || pc.PersistCancelling?
  }

  predicate CancelOver(pc: CancelPc) {
    pc.Replied? || pc.Aborted?
  }

  function Mark(s: Status, asked: bool): Change {
    Change(Some(s), NO_WORKER, asked, false)
  }

  /** What a terminal status of the task object makes `cancel` reply. */
  function TaskReply(s: Status, t: Token): CancelPc {
    Replied(if s == Cancelled then OutCancelled else if s == CancelFailed then OutCancelFailed else OutAlreadyDone,
            Some(t), false, false)
  }

  function RowReply(row: TaskRow): CancelPc {
    Replied(if row.status == Cancelled then OutCancelled
            else if row.status == CancelFailed then OutCancelFailed else OutAlreadyDone,
            Some(row.token), true, true)
  }

  /** The path with a task object: `task` is the one the look-up gives now. */
  function CancelTask(pc: CancelPc, task: Token, run: Run, db: Tables, c: Choice): Option<(CancelPc, Run, Tables)>
    requires c.Go? || c.DbFails?
  {
    match pc
    case Enter =>
      Some(if Terminal(run.mem) then (TaskReply(run.mem, task), run, db)
           else if run.mem == Queued then (PersistQueuedCancel(task), run.(mem := Cancelled, asked := true), db)
           else if run.mem == Building then (PersistCancelling(task), run.(mem := Cancelling, asked := true), db)
           else (AwaitRun(task), run, db))
    case PersistQueuedCancel(t) =>
      Some((Replied(OutCancelled, Some(t), false, false), run, db.(rows := Persist(db.rows, run, t, Cancelled, false, c).0)))
    case PersistCancelling(t) =>
      Some((AwaitRun(t), run, db.(rows := Persist(db.rows, run, t, Cancelling, false, c).0)))
    case AwaitRun(_) =>
      Some(if run.mem in {Cancelled, Success, Failed} then (TaskReply(run.mem, task), run, db)
           else (StillRunning(task), run, db))
    case StillRunning(t) =>
      Some((PersistCancelFailed(t), if run.mem == Cancelling then run.(mem := CancelFailed) else run, db))
    case _ => None
  }

  /** The steps that touch no task object. */
  function CancelRow(pc: CancelPc, inst: Instance, db: Tables, c: Choice): Option<(CancelPc, Tables)>
    requires c.Go? || c.TimesOut?
  {
    match pc
    case PersistCancelFailed(t) =>
      Some((Replied(OutCancelFailed, Some(t), false, false),
            db.(rows := Update(db.rows, inst, t, Mark(CancelFailed, false)).0)))
    case ReadRow =>
      Some((if inst !in db.rows then Replied(OutNoop, None, true, true)
            else var row := db.rows[inst];
                 if Terminal(row.status) then RowReply(row)
                 else if row.status == Queued then CancelQueuedRow(row.token)
                 else CancelActiveRow(row.token, row.owner), db))
    case CancelQueuedRow(t) =>
      var (rows, ok) := Update(db.rows, inst, t, Mark(Cancelled, true));
      Some((Replied(OutCancelled, Some(t), true, ok), db.(rows := rows)))
    case CancelActiveRow(t, owner) =>
      Some((ProbeOwner(t, owner), db.(rows := Update(db.rows, inst, t, Mark(Cancelling, true)).0)))
    case ProbeOwner(t, owner) =>
      Some((if c.Go? && owner !in c.probe then CancelOrphanRow(t) else AwaitRow, db))
    case CancelOrphanRow(t) =>
      var (rows, ok) := Update(db.rows, inst, t, Mark(Cancelled, false));
      Some((Replied(OutCancelled, Some(t), true, ok), db.(rows := rows)))
    case AwaitRow =>
      Some((if c.TimesOut? then RereadRow
            else if inst !in db.rows then Replied(OutCancelled, None, true, true)
            else if Terminal(db.rows[inst].status) then RowReply(db.rows[inst])
            else AwaitRow, db))
    case RereadRow =>
      Some((if inst in db.rows then FailRow(db.rows[inst].token) else Replied(OutCancelFailed, None, true, true), db))
    case FailRow(t) =>
      Some((Replied(OutCancelFailed, Some(t), true, false),
            db.(rows := Update(db.rows, inst, t, Mark(CancelFailed, false)).0)))
    case _ => None
  }

  // ---- The whole system -----------------------------------------------------------

  datatype Holder = HeldByRun(t: Token) | HeldByCancel(id: nat)

  datatype Seen = Seen(inst: Instance, token: Token, status: Status)

  /** `tasks` is `_tasks` of each process; `guards` has an entry for each guard that is
      held; `seen` records every row that was ever committed. */
  datatype State = State(alive: set<Pid>, db: Tables, tasks: map<(Pid, Instance), Token>, guards: map<Pid, Holder>,
                         runs: map<Token, Run>, cancels: map<nat, Cancel>, seen: set<Seen>)

  datatype Event =
    | Start(t: Token, pid: Pid, inst: Instance)
    | RunStep(t: Token, c: Choice)
    | StartCancel(id: nat, pid: Pid, inst: Instance)
    | CancelStep(id: nat, c: Choice)
    | Die(pid: Pid)

  function Snapshot(rows: Rows): set<Seen> {
    set i | i in rows :: Seen(i, rows[i].token, rows[i].status)
  }

  /** Tables left behind by processes that are gone, and nothing running. */
  predicate Init(k: nat, s: State) {
    && s.tasks == map[] && s.guards == map[] && s.runs == map[] && s.cancels == map[]
    && s.seen == Snapshot(s.db.rows)
    && forall n :: n in s.db.slots ==> n < k && s.db.slots[n].pid !in s.alive
  }

  function SetGuard(guards: map<Pid, Holder>, p: Pid, before: bool, after: bool, h: Holder): map<Pid, Holder> {
    if after then guards[p := h] else if before then guards - {p} else guards
  }

  /** The half of the instance lock that is inside a process: runs of one instance in one process
      do not overlap. */
  predicate Idle(s: State, pid: Pid, inst: Instance) {
    forall t :: t in s.runs && s.runs[t].pid == pid && s.runs[t].inst == inst ==> Finished(s.runs[t].pc)
  }

  predicate Underway(s: State, t: Token)
    requires t in s.runs
  {
    s.runs[t].pid in s.alive && !Finished(s.runs[t].pc)
  }

  /** The whole instance lock, which is one across processes and which every caller of `run`
      holds: of the runs of live processes, at most one is underway for an instance.  The steps do
      not ask for it; a theorem that rests on it says so. */
  predicate Locked(s: State) {
    forall t, u :: t in s.runs && u in s.runs && Underway(s, t) && Underway(s, u) && s.runs[t].inst == s.runs[u].inst ==>
      t == u
  }

  /** A probe never calls a live process dead. */
  predicate Honest(s: State, c: Choice) {
    c.Go? ==> s.alive <= c.probe
  }

  predicate Enabled(s: State, e: Event) {
    match e
    case Start(t, pid, inst) =>
      && pid in s.alive && pid !in s.guards && t !in s.runs && Idle(s, pid, inst)
      && forall x :: x in s.seen ==> x.token != t
    case RunStep(t, c) =>
      && t in s.runs && s.runs[t].pid in s.alive && Honest(s, c)
      && (TakesGuard(s.runs[t].pc) && !c.Interrupt? ==> s.runs[t].pid !in s.guards)
    case StartCancel(id, pid, inst) =>
      id !in s.cancels && pid in s.alive
    case CancelStep(id, c) =>
      && id in s.cancels && s.cancels[id].pid in s.alive && Honest(s, c)
      && (CancelTakesGuard(s.cancels[id].pc) && !c.Raise? ==> s.cancels[id].pid !in s.guards)
    case Die(pid) => true
  }

  /** The task a cancelling call works on: the one looked up, or the one it holds. */
  function TaskOf(s: State, x: Cancel): Option<Token> {
    match x.pc
    case Enter => if (x.pid, x.inst) in s.tasks then Some(s.tasks[(x.pid, x.inst)]) else None
    case AwaitRun(_) => if (x.pid, x.inst) in s.tasks then Some(s.tasks[(x.pid, x.inst)]) else None
    case PersistQueuedCancel(t) => Some(t)
    case PersistCancelling(t) => Some(t)
    case StillRunning(t) => Some(t)
    case _ => None
  }

  function Next(k: nat, s: State, e: Event): Option<State> {
    if !Enabled(s, e) then None else
    match e
    case Start(t, pid, inst) =>
      Some(s.(tasks := s.tasks[(pid, inst) := t],
              runs := s.runs[t := Run(pid, inst, Queued, false, None, PersistQueued, false, false, false)]))
    case RunStep(t, c) =>
      var r := s.runs[t];
      (match RunNext(r, t, s.db, k, c)
       case None => None
       case Some((r', db')) =>
         Some(s.(db := db', runs := s.runs[t := r'], seen := s.seen + Snapshot(db'.rows),
                 guards := SetGuard(s.guards, r.pid, HoldsGuard(r.pc), HoldsGuard(r'.pc), HeldByRun(t)))))
    case StartCancel(id, pid, inst) =>
      Some(s.(cancels := s.cancels[id := Cancel(pid, inst, Enter)]))
    case CancelStep(id, c) => CancelNext(s, id, s.cancels[id], c)
    case Die(pid) => Some(s.(alive := s.alive - {pid}))
  }

  /** The effect of one step of a cancelling call. */
  function CancelNext(s: State, id: nat, x: Cancel, c: Choice): Option<State>
    requires id in s.cancels
  {
    if CancelOver(x.pc) then None
    else if c.Raise? then Some(WithCancel(s, id, x, Aborted, s.db, s.runs))
    else
      match TaskOf(s, x)
      case Some(t) =>
        if t in s.runs && (c.Go? || c.DbFails?) then
          (match CancelTask(x.pc, t, s.runs[t], s.db, c)
           case None => None
           case Some((pc, r, db)) => Some(WithCancel(s, id, x, pc, db, s.runs[t := r])))
        else None
      case None =>
        if x.pc.Enter? then Some(WithCancel(s, id, x, ReadRow, s.db, s.runs))
        else if c.Go? || c.TimesOut? then
          (match CancelRow(x.pc, x.inst, s.db, c)
           case None => None
           case Some((pc, db)) => Some(WithCancel(s, id, x, pc, db, s.runs)))
        else None
  }

  function WithCancel(s: State, id: nat, x: Cancel, pc: CancelPc, db: Tables, runs: map<Token, Run>): State {
    s.(db := db, runs := runs, cancels := s.cancels[id := x.(pc := pc)], seen := s.seen + Snapshot(db.rows),
       guards := SetGuard(s.guards, x.pid, CancelHoldsGuard(x.pc), CancelHoldsGuard(pc), HeldByCancel(id)))
  }

  ghost predicate Step(k: nat, s: State, s': State) {
    exists e :: Next(k, s, e) == Some(s')
  }

  /** A finite run of the whole system. */
  ghost predicate Behaviour(k: nat, b: seq<State>) {
    && |b| > 0 && Init(k, b[0])
    && forall n :: 0 <= n < |b| - 1 ==> Step(k, b[n], b[n + 1])
  }

  /** A behaviour in which the lock is held. */
  predicate LockHeld(b: seq<State>) {
    forall n :: 0 <= n < |b| ==> Locked(b[n])
  }
}
