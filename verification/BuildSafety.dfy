/**
What every interleaving of the build queue keeps, and the theorems that follow.

A run is *barred* when its builder is not executing and never will be (again), and its
result will never be returned.  Being barred is a local matter, it never ends, and a
task object that says cancelled belongs to a barred run: that is the whole argument
about cancelling inside one process.  Across processes the argument is about rows: a
row only moves along the transition table, and only the first write of a run can make
its token current.
*/
module BuildSafety {
  import opened Wrappers
  import opened BuildTasks
  import opened BuildProtocol

  // ---- One run -------------------------------------------------------------------

  /** Where a run stands: not yet past the check before the builder; in that check, with
      the guard held; from there to the check after the builder; from there to a returned
      result; or none of these, on the way to an exception. */
  datatype Phase = Undecided | Deciding | Committed | Winning | Over

  /** The half of the way to a slot that asks the gate. */
  predicate Asking(pc: RunPc) {
    pc.FirstTry? || pc.Waiting? || pc.Granted?
  }

  predicate Early(site: Site) {
    site.AfterFirstTry? || site.AfterWait? || site.BeforeBuild?
  }

  function PhaseOf(pc: RunPc): Phase {
    match pc
    case PersistQueued => Undecided
    case FirstTry => Undecided
    case Requeue => Undecided
    case PersistRequeued => Undecided
    case Waiting => Undecided
    case Granted(_) => Undecided
    case Check(site) => if Early(site) then Undecided else if site.AfterBuild? then Committed else Over
    case CheckRow(site) => if Early(site) then Deciding else if site.AfterBuild? then Committed else Over
    case PersistBuilding => Committed
    case Ready => Committed
    case Executing => Committed
    case PersistSuccess => Winning
    case ReleaseSlot(ok) => if ok then Winning else Over
    case ReleaseRest(ok) => if ok then Winning else Over
    case Returned => Winning
    case _ => Over
  }

  /** The row has become success; only the slot remains to be given back. */
  predicate Won(pc: RunPc) {
    PhaseOf(pc).Winning? && !pc.PersistSuccess?
  }

  predicate Barred(r: Run) {
    PhaseOf(r.pc).Over? || (PhaseOf(r.pc).Undecided? && r.mem == Cancelled)
  }

  /** What the task object can say in each phase. */
  predicate MemOk(r: Run) {
    match PhaseOf(r.pc)
    case Undecided => r.mem == Queued || r.mem == Cancelled
    case Deciding => r.mem == Queued
    case Committed => r.mem == Building || r.mem == Cancelling || r.mem == CancelFailed
    case Winning => r.mem == Success
    case Over => r.pc.PersistFailing? ==> r.mem == r.pc.status && r.mem in {Cancelled, Failed}
  }

  /** How one transaction can change the rows: rows stay, and move along the table, except
      that `t` may open row `i`; a new row can only be `i`, for `t`. */
  predicate Writes(rows: Rows, rows': Rows, i: Instance, t: Token, opening: bool) {
    && (forall j :: j in rows ==> j in rows')
    && (forall j :: j in rows ==>
          || (rows'[j].token == rows[j].token && Edge(rows[j].status, rows'[j].status))
          || (opening && j == i && rows'[j].token == t))
    && (forall j :: j in rows' && j !in rows ==> j == i && rows'[j].token == t)
  }

  predicate Moves(rows: Rows, rows': Rows) {
    rows.Keys == rows'.Keys &&
    forall j :: j in rows ==> rows'[j].token == rows[j].token && Edge(rows[j].status, rows'[j].status)
  }

  lemma PersistWrites(rows: Rows, r: Run, t: Token, s: Status, replace: bool, c: Choice)
    ensures Writes(rows, Persist(rows, r, t, s, replace, c).0, r.inst, t, replace)
    ensures Persist(rows, r, t, s, replace, c).1 ==>
              var rows' := Persist(rows, r, t, s, replace, c).0;
              r.inst in rows' && rows'[r.inst].token == t && rows'[r.inst].status == s
  {
  }

  lemma UpdateMoves(rows: Rows, i: Instance, t: Token, c: Change)
    ensures Moves(rows, Update(rows, i, t, c).0)
    ensures Update(rows, i, t, c).1 ==>
              var rows' := Update(rows, i, t, c).0;
              i in rows' && rows'[i].token == t && (c.status.Some? ==> rows'[i].status == c.status.value)
  {
  }

  lemma AcquireMoves(db: Tables, probe: set<Pid>, k: nat, i: Instance, pid: Pid)
    ensures Moves(db.rows, TryAcquire(db, probe, k, i, pid).0.rows)
  {
  }

  /** One step of a run: what the task object can say stays right and a barred run stays
      barred. */
  predicate KeepsRun(r: Run, r': Run) {
    && MemOk(r') && r'.pid == r.pid && r'.inst == r.inst
    && (Barred(r) ==> Barred(r'))
    && !r'.pc.PersistQueued?
    && (HoldsGuard(r'.pc) ==> HoldsGuard(r.pc) || TakesGuard(r.pc))
  }

  lemma RunKeeps(r: Run, t: Token, db: Tables, k: nat, c: Choice)
    requires MemOk(r) && RunNext(r, t, db, k, c).Some?
    ensures KeepsRun(r, RunNext(r, t, db, k, c).value.0)
    ensures HoldsGuard(RunNext(r, t, db, k, c).value.0.pc) ==> !c.Interrupt?
  {
    hide CancelRequested, RunQueues, RunSettles, RunBuilds;
    if c.Go? || c.DbFails? {
      QueueingKeeps(r, t, db, k, c);
      SettlingKeeps(r, t, db, c);
      BuildingKeeps(r, t, db, c);
    }
  }

  lemma QueueingKeeps(r: Run, t: Token, db: Tables, k: nat, c: Choice)
    requires c.Go? || c.DbFails?
    requires MemOk(r)
    ensures RunQueues(r, t, db, k, c).Some? ==> KeepsRun(r, RunQueues(r, t, db, k, c).value.0)
  {
    hide RunQueues, KeepsRun, MemOk;
    if Asking(r.pc) {
      AskingKeeps(r, t, db, k, c);
    } else {
      MarkingKeeps(r, t, db, k, c);
    }
  }

  lemma AskingKeeps(r: Run, t: Token, db: Tables, k: nat, c: Choice)
    requires (c.Go? || c.DbFails?) && MemOk(r) && Asking(r.pc)
    ensures RunQueues(r, t, db, k, c).Some? ==> KeepsRun(r, RunQueues(r, t, db, k, c).value.0)
  {
    hide TryAcquire, Persist;
  }

  lemma MarkingKeeps(r: Run, t: Token, db: Tables, k: nat, c: Choice)
    requires (c.Go? || c.DbFails?) && MemOk(r) && !Asking(r.pc)
    ensures RunQueues(r, t, db, k, c).Some? ==> KeepsRun(r, RunQueues(r, t, db, k, c).value.0)
  {
    hide TryAcquire, Persist;
  }

  lemma SettlingKeeps(r: Run, t: Token, db: Tables, c: Choice)
    requires c.Go? || c.DbFails?
    requires MemOk(r)
    ensures RunSettles(r, t, db, c).Some? ==> KeepsRun(r, RunSettles(r, t, db, c).value.0)
  {
    hide RunSettles, KeepsRun, MemOk;
    if r.pc.Check? || r.pc.CheckRow? {
      CheckingKeeps(r, t, db, c);
    } else {
      EndingKeeps(r, t, db, c);
    }
  }

  lemma CheckingKeeps(r: Run, t: Token, db: Tables, c: Choice)
    requires c.Go? || c.DbFails?
    requires MemOk(r) && (r.pc.Check? || r.pc.CheckRow?)
    ensures RunSettles(r, t, db, c).Some? ==> KeepsRun(r, RunSettles(r, t, db, c).value.0)
  {
    hide Persist, CancelRequested;
  }

  lemma EndingKeeps(r: Run, t: Token, db: Tables, c: Choice)
    requires c.Go? || c.DbFails?
    requires MemOk(r) && !r.pc.Check? && !r.pc.CheckRow?
    ensures RunSettles(r, t, db, c).Some? ==> KeepsRun(r, RunSettles(r, t, db, c).value.0)
  {
    hide RunSettles, KeepsRun, MemOk;
    if r.pc.CheckReread? || r.pc.Settle? {
      CancellingKeeps(r, t, db, c);
    } else {
      FailingKeeps(r, t, db, c);
    }
  }

  lemma CancellingKeeps(r: Run, t: Token, db: Tables, c: Choice)
    requires c.Go? || c.DbFails?
    requires MemOk(r) && (r.pc.CheckReread? || r.pc.Settle?)
    ensures RunSettles(r, t, db, c).Some? ==> KeepsRun(r, RunSettles(r, t, db, c).value.0)
  {
    hide Persist, CancelRequested;
  }

  lemma FailingKeeps(r: Run, t: Token, db: Tables, c: Choice)
    requires c.Go? || c.DbFails?
    requires MemOk(r) && !r.pc.Check? && !r.pc.CheckRow? && !r.pc.CheckReread? && !r.pc.Settle?
    ensures RunSettles(r, t, db, c).Some? ==> KeepsRun(r, RunSettles(r, t, db, c).value.0)
  {
    hide Persist, CancelRequested;
  }

  lemma BuildingKeeps(r: Run, t: Token, db: Tables, c: Choice)
    requires c.Go? || c.DbFails?
    requires MemOk(r)
    ensures RunBuilds(r, t, db, c).Some? ==> KeepsRun(r, RunBuilds(r, t, db, c).value.0)
  {
    hide RunBuilds, KeepsRun, MemOk;
    if r.pc.ReleaseSlot? || r.pc.ReleaseRest? {
      ReleasingKeeps(r, t, db, c);
    } else {
      BuilderKeeps(r, t, db, c);
    }
  }

  lemma ReleasingKeeps(r: Run, t: Token, db: Tables, c: Choice)
    requires c.Go? || c.DbFails?
    requires MemOk(r) && (r.pc.ReleaseSlot? || r.pc.ReleaseRest?)
    ensures RunBuilds(r, t, db, c).Some? ==> KeepsRun(r, RunBuilds(r, t, db, c).value.0)
  {
    hide Release, ReleaseInstance;
  }

  lemma BuilderKeeps(r: Run, t: Token, db: Tables, c: Choice)
    requires c.Go? || c.DbFails?
    requires MemOk(r) && !r.pc.ReleaseSlot? && !r.pc.ReleaseRest?
    ensures RunBuilds(r, t, db, c).Some? ==> KeepsRun(r, RunBuilds(r, t, db, c).value.0)
  {
    hide Persist;
  }

  /** The writes of a run have the shape above, and the row is building before the builder
      is called, success before the result is. */
  predicate WritesAsRun(r: Run, r': Run, t: Token, db: Tables, db': Tables) {
    && Writes(db.rows, db'.rows, r.inst, t, r.pc.PersistQueued?)
    && ((r'.pc.Ready? || (Won(r'.pc) && !Won(r.pc))) ==>
          && r.inst in db'.rows && db'.rows[r.inst].token == t
          && db'.rows[r.inst].status == if r'.pc.Ready? then Building else Success)
    && (r'.began ==> r.began || r.pc.Ready?)
  }

  lemma RunWrites(r: Run, t: Token, db: Tables, k: nat, c: Choice)
    requires RunNext(r, t, db, k, c).Some?
    ensures var (r', db') := RunNext(r, t, db, k, c).value; WritesAsRun(r, r', t, db, db')
  {
    hide CancelRequested, RunQueues, RunSettles, RunBuilds, Update;
    match c {
      case RecordWorker(w) => UpdateMoves(db.rows, r.inst, t, Change(None, c.w, false, false));
      case ClearWorker => UpdateMoves(db.rows, r.inst, t, Change(None, NO_WORKER, false, true));
      case Go(_) => QueueingWrites(r, t, db, k, c); SettlingWrites(r, t, db, c); BuildingWrites(r, t, db, c);
      case DbFails => QueueingWrites(r, t, db, k, c); SettlingWrites(r, t, db, c); BuildingWrites(r, t, db, c);
      case _ =>
    }
  }

  lemma QueueingWrites(r: Run, t: Token, db: Tables, k: nat, c: Choice)
    requires c.Go? || c.DbFails?
    ensures RunQueues(r, t, db, k, c).Some? ==>
              var (r', db') := RunQueues(r, t, db, k, c).value; WritesAsRun(r, r', t, db, db')
  {
    hide RunQueues, WritesAsRun;
    if Asking(r.pc) {
      AskingWrites(r, t, db, k, c);
    } else {
      MarkingWrites(r, t, db, k, c);
    }
  }

  lemma AskingWrites(r: Run, t: Token, db: Tables, k: nat, c: Choice)
    requires (c.Go? || c.DbFails?) && Asking(r.pc)
    ensures RunQueues(r, t, db, k, c).Some? ==>
              var (r', db') := RunQueues(r, t, db, k, c).value; WritesAsRun(r, r', t, db, db')
  {
    hide TryAcquire, Persist;
    if c.Go? { AcquireMoves(db, c.probe, k, r.inst, r.pid); }
  }

  lemma MarkingWrites(r: Run, t: Token, db: Tables, k: nat, c: Choice)
    requires (c.Go? || c.DbFails?) && !Asking(r.pc)
    ensures RunQueues(r, t, db, k, c).Some? ==>
              var (r', db') := RunQueues(r, t, db, k, c).value; WritesAsRun(r, r', t, db, db')
  {
    hide TryAcquire, Persist;
    PersistWrites(db.rows, r, t, if r.pc.PersistTimedOut? then Failed else Queued, r.pc.PersistQueued?, c);
  }

  lemma SettlingWrites(r: Run, t: Token, db: Tables, c: Choice)
    requires c.Go? || c.DbFails?
    ensures RunSettles(r, t, db, c).Some? ==>
              var (r', db') := RunSettles(r, t, db, c).value; WritesAsRun(r, r', t, db, db')
  {
    hide RunSettles, WritesAsRun;
    if r.pc.Settle? || r.pc.PersistBuilderCancelled? || r.pc.PersistFailing? {
      EndingWrites(r, t, db, c);
    } else {
      LookingWrites(r, t, db, c);
    }
  }

  lemma EndingWrites(r: Run, t: Token, db: Tables, c: Choice)
    requires c.Go? || c.DbFails?
    requires r.pc.Settle? || r.pc.PersistBuilderCancelled? || r.pc.PersistFailing?
    ensures RunSettles(r, t, db, c).Some? ==>
              var (r', db') := RunSettles(r, t, db, c).value; WritesAsRun(r, r', t, db, db')
  {
    hide Persist, CancelRequested;
    PersistWrites(db.rows, r, t, if r.pc.PersistFailing? then r.pc.status else Cancelled, false, c);
  }

  lemma LookingWrites(r: Run, t: Token, db: Tables, c: Choice)
    requires c.Go? || c.DbFails?
    requires !r.pc.Settle? && !r.pc.PersistBuilderCancelled? && !r.pc.PersistFailing?
    ensures RunSettles(r, t, db, c).Some? ==>
              var (r', db') := RunSettles(r, t, db, c).value; WritesAsRun(r, r', t, db, db')
  {
    hide Persist, CancelRequested;
  }

  lemma BuildingWrites(r: Run, t: Token, db: Tables, c: Choice)
    requires c.Go? || c.DbFails?
    ensures RunBuilds(r, t, db, c).Some? ==>
              var (r', db') := RunBuilds(r, t, db, c).value; WritesAsRun(r, r', t, db, db')
  {
    hide RunBuilds, WritesAsRun;
    if r.pc.PersistBuilding? || r.pc.PersistSuccess? {
      ResultWrites(r, t, db, c);
    } else {
      BuilderWrites(r, t, db, c);
    }
  }

  lemma ResultWrites(r: Run, t: Token, db: Tables, c: Choice)
    requires (c.Go? || c.DbFails?) && (r.pc.PersistBuilding? || r.pc.PersistSuccess?)
    ensures RunBuilds(r, t, db, c).Some? ==>
              var (r', db') := RunBuilds(r, t, db, c).value; WritesAsRun(r, r', t, db, db')
  {
    hide Persist, Release, ReleaseInstance;
    PersistWrites(db.rows, r, t, if r.pc.PersistBuilding? then Building else Success, false, c);
  }

  lemma BuilderWrites(r: Run, t: Token, db: Tables, c: Choice)
    requires (c.Go? || c.DbFails?) && !r.pc.PersistBuilding? && !r.pc.PersistSuccess?
    ensures RunBuilds(r, t, db, c).Some? ==>
              var (r', db') := RunBuilds(r, t, db, c).value; WritesAsRun(r, r', t, db, db')
  {
    hide Persist, Release, ReleaseInstance;
  }

  // ---- One cancelling call ----------------------------------------------------------

  /** What a cancelling call may rely on about the task it names, given that task's run. */
  predicate CallOk(pc: CancelPc, run: Run) {
    && (pc.PersistQueuedCancel? ==> Barred(run))
    && (pc.PersistCancelling? ==> !run.pc.PersistQueued?)
    && (pc.Replied? && pc.outcome.OutCancelled? && !pc.crossProcess ==> Barred(run))
  }

  /** The generation a call names, where it names one of its own process. */
  function Named(pc: CancelPc): Option<Token> {
    match pc
    case PersistQueuedCancel(t) => Some(t)
    case PersistCancelling(t) => Some(t)
    case StillRunning(t) => Some(t)
    case AwaitRun(t) => Some(t)
    case PersistCancelFailed(t) => Some(t)
    case Replied(_, about, crossProcess, _) => if crossProcess then None else about
    case _ => None
  }

  /** A guarded look at a task object, with the guard held by nobody else, keeps what the
      object can say; it never lifts a bar, and it promises "cancelled" only of a barred run. */
  lemma CancelTaskKeeps(pc: CancelPc, task: Token, run: Run, db: Tables, c: Choice)
    requires c.Go? || c.DbFails?
    requires MemOk(run) && CallOk(pc, run)
    requires CancelTakesGuard(pc) ==> !HoldsGuard(run.pc)
    requires pc.PersistQueuedCancel? || pc.PersistCancelling? || pc.StillRunning? ==> Named(pc) == Some(task)
    requires CancelTask(pc, task, run, db, c).Some?
    ensures var (pc', run', db') := CancelTask(pc, task, run, db, c).value;
            && MemOk(run') && CallOk(pc', run')
            && run' == run.(mem := run'.mem, asked := run'.asked)
            && (Barred(run) ==> Barred(run'))
            && (Terminal(run.mem) ==> run'.mem == run.mem)
            && (Named(pc').Some? ==> Named(pc') == Some(task))
            && (pc'.Replied? ==> !pc'.crossProcess)
            && (CancelHoldsGuard(pc') ==> CancelTakesGuard(pc))
            && db'.slots == db.slots
            && Writes(db.rows, db'.rows, run.inst, task, false)
            && (db'.rows == db.rows || Barred(run) || !run.pc.PersistQueued?)
  {
    hide Persist;
    PersistWrites(db.rows, run, task, if pc.PersistQueuedCancel? then Cancelled else Cancelling, false, c);
  }

  /** The steps on another process's row only move rows along the table, and claim
      "cancelled" with a written or read row behind it only when there is one. */
  lemma CancelRowMoves(pc: CancelPc, inst: Instance, db: Tables, c: Choice)
    requires c.Go? || c.TimesOut?
    requires CancelRow(pc, inst, db, c).Some?
    ensures var (pc', db') := CancelRow(pc, inst, db, c).value;
            && db'.slots == db.slots && Moves(db.rows, db'.rows)
            && (Named(pc').Some? ==> Named(pc') == Named(pc))
            && !(pc'.Replied? && pc'.outcome.OutCancelled? && !pc'.crossProcess)
            && !pc'.PersistQueuedCancel? && !pc'.PersistCancelling?
            && (pc'.Replied? && pc'.outcome.OutCancelled? && pc'.written ==>
                  pc'.about.None? ||
                  (inst in db'.rows && db'.rows[inst].token == pc'.about.value && db'.rows[inst].status == Cancelled))
  {
    hide Update;
    if pc.PersistCancelFailed? || pc.FailRow? { UpdateMoves(db.rows, inst, pc.t, Mark(CancelFailed, false)); }
    if pc.CancelQueuedRow? { UpdateMoves(db.rows, inst, pc.t, Mark(Cancelled, true)); }
    if pc.CancelActiveRow? { UpdateMoves(db.rows, inst, pc.t, Mark(Cancelling, true)); }
    if pc.CancelOrphanRow? { UpdateMoves(db.rows, inst, pc.t, Mark(Cancelled, false)); }
  }

  // ---- The shared task objects --------------------------------------------------------

  predicate TasksOk(s: State) {
    forall key :: key in s.tasks ==>
      s.tasks[key] in s.runs && s.runs[s.tasks[key]].pid == key.0 && s.runs[s.tasks[key]].inst == key.1
  }

  predicate RunsOk(s: State) {
    forall t :: t in s.runs ==>
      && MemOk(s.runs[t])
      && (HoldsGuard(s.runs[t].pc) ==> s.runs[t].pid in s.guards && s.guards[s.runs[t].pid] == HeldByRun(t))
  }

  predicate CallsOk(s: State) {
    forall id :: id in s.cancels ==> CallHolds(s, id, s.cancels[id])
  }

  predicate CallHolds(s: State, id: nat, x: Cancel) {
    && (CancelHoldsGuard(x.pc) ==> x.pid in s.guards && s.guards[x.pid] == HeldByCancel(id))
    && (Named(x.pc).Some? ==>
          && Named(x.pc).value in s.runs
          && s.runs[Named(x.pc).value].pid == x.pid && s.runs[Named(x.pc).value].inst == x.inst
          && CallOk(x.pc, s.runs[Named(x.pc).value]))
  }

  predicate Memory(s: State) {
    TasksOk(s) && RunsOk(s) && CallsOk(s)
  }

  /** No run is lost, and none changes its process, its instance or its bar. */
  predicate RunsGrow(s: State, s': State) {
    forall t :: t in s.runs ==>
      && t in s'.runs && s'.runs[t].pid == s.runs[t].pid && s'.runs[t].inst == s.runs[t].inst
      && (Barred(s.runs[t]) ==> Barred(s'.runs[t]))
      && (s'.runs[t].pc.PersistQueued? ==> s.runs[t].pc.PersistQueued?)
  }

  lemma CallsStay(s: State, s': State, id: nat)
    requires id in s.cancels && CallHolds(s, id, s.cancels[id]) && RunsGrow(s, s')
    requires CancelHoldsGuard(s.cancels[id].pc) ==>
               s.cancels[id].pid in s'.guards && s'.guards[s.cancels[id].pid] == s.guards[s.cancels[id].pid]
    ensures CallHolds(s', id, s.cancels[id])
  {
  }

  lemma MemoryAfterRunStep(k: nat, s: State, t: Token, c: Choice)
    requires Memory(s) && Next(k, s, RunStep(t, c)).Some?
    ensures var s' := Next(k, s, RunStep(t, c)).value; Memory(s') && RunsGrow(s, s')
  {
    hide RunNext;
    var s' := Next(k, s, RunStep(t, c)).value;
    var r := s.runs[t];
    RunKeeps(r, t, s.db, k, c);
    assert RunsGrow(s, s');
    forall id | id in s'.cancels ensures CallHolds(s', id, s'.cancels[id]) {
      CallsStay(s, s', id);
    }
  }

  lemma TaskStepGrows(s: State, id: nat, t: Token, pc: CancelPc, r: Run, db: Tables)
    requires id in s.cancels && t in s.runs
    requires r == s.runs[t].(mem := r.mem, asked := r.asked) && (Barred(s.runs[t]) ==> Barred(r))
    ensures RunsGrow(s, WithCancel(s, id, s.cancels[id], pc, db, s.runs[t := r]))
  {
    hide Barred;
  }

  /** Rewriting one task object and one call, under the rules `CancelTaskKeeps` gives. */
  lemma MemoryAfterTaskStep(s: State, id: nat, t: Token, pc: CancelPc, r: Run, db: Tables)
    requires Memory(s) && id in s.cancels && TaskOf(s, s.cancels[id]) == Some(t) && t in s.runs
    requires r == s.runs[t].(mem := r.mem, asked := r.asked) && MemOk(r) && CallOk(pc, r)
    requires Barred(s.runs[t]) ==> Barred(r)
    requires Named(pc).Some? ==> Named(pc) == Some(t)
    requires CancelTakesGuard(s.cancels[id].pc) ==> s.cancels[id].pid !in s.guards
    requires CancelHoldsGuard(pc) ==> CancelTakesGuard(s.cancels[id].pc)
    ensures var s' := WithCancel(s, id, s.cancels[id], pc, db, s.runs[t := r]); Memory(s') && RunsGrow(s, s')
  {
    hide MemOk, Barred, CallOk;
    var x := s.cancels[id];
    assert CallHolds(s, id, x);
    var s' := WithCancel(s, id, x, pc, db, s.runs[t := r]);
    TaskStepGrows(s, id, t, pc, r, db);
    assert CallHolds(s', id, s'.cancels[id]);
    hide RunsGrow;
    forall other | other in s.cancels && other != id ensures CallHolds(s', other, s'.cancels[other]) {
      assert CallHolds(s, other, s.cancels[other]);
      CallsStay(s, s', other);
    }
  }

  lemma MemoryAfterPlainStep(s: State, id: nat, pc: CancelPc, db: Tables)
    requires Memory(s) && id in s.cancels && !CancelHoldsGuard(pc)
    requires Named(pc).Some? ==> Named(pc) == Named(s.cancels[id].pc)
    requires !(pc.Replied? && pc.outcome.OutCancelled? && !pc.crossProcess)
    ensures var s' := WithCancel(s, id, s.cancels[id], pc, db, s.runs); Memory(s') && RunsGrow(s, s')
  {
    var x := s.cancels[id];
    assert CallHolds(s, id, x);
    var s' := WithCancel(s, id, x, pc, db, s.runs);
    forall other | other in s.cancels && other != id ensures CallHolds(s', other, s'.cancels[other]) {
      CallsStay(s, s', other);
    }
  }

  lemma MemoryAfterCancelStep(k: nat, s: State, id: nat, c: Choice)
    requires Memory(s) && Next(k, s, CancelStep(id, c)).Some?
    ensures var s' := Next(k, s, CancelStep(id, c)).value; Memory(s') && RunsGrow(s, s')
  {
    hide CancelTask, CancelRow, WithCancel, RunsGrow, MemOk, Barred;
    var x := s.cancels[id];
    if c.Raise? {
      MemoryAfterPlainStep(s, id, Aborted, s.db);
    } else if TaskOf(s, x).Some? {
      assert CallHolds(s, id, x);
      var t := TaskOf(s, x).value;
      CancelTaskKeeps(x.pc, t, s.runs[t], s.db, c);
      var (pc, r, db) := CancelTask(x.pc, t, s.runs[t], s.db, c).value;
      MemoryAfterTaskStep(s, id, t, pc, r, db);
    } else if x.pc.Enter? {
      MemoryAfterPlainStep(s, id, ReadRow, s.db);
    } else {
      CancelRowMoves(x.pc, x.inst, s.db, c);
      var (pc, db) := CancelRow(x.pc, x.inst, s.db, c).value;
      MemoryAfterPlainStep(s, id, pc, db);
    }
  }

  lemma MemoryAfterStart(k: nat, s: State, t: Token, pid: Pid, inst: Instance)
    requires Memory(s) && Next(k, s, Start(t, pid, inst)).Some?
    ensures var s' := Next(k, s, Start(t, pid, inst)).value; Memory(s') && RunsGrow(s, s')
  {
    var s' := Next(k, s, Start(t, pid, inst)).value;
    forall id | id in s'.cancels ensures CallHolds(s', id, s'.cancels[id]) {
      CallsStay(s, s', id);
    }
  }

  /** Every step keeps what is said about task objects, and lifts no bar. */
  lemma MemoryHolds(k: nat, s: State, e: Event)
    requires Memory(s) && Next(k, s, e).Some?
    ensures Memory(Next(k, s, e).value) && RunsGrow(s, Next(k, s, e).value)
  {
    match e {
      case Start(t, pid, inst) => MemoryAfterStart(k, s, t, pid, inst);
      case RunStep(t, c) => MemoryAfterRunStep(k, s, t, c);
      case CancelStep(id, c) => MemoryAfterCancelStep(k, s, id, c);
      case StartCancel(_, _, _) =>
        var s' := Next(k, s, e).value;
        forall id | id in s'.cancels ensures CallHolds(s', id, s'.cancels[id]) {
          if id in s.cancels { CallsStay(s, s', id); }
        }
      case Die(_) =>
        var s' := Next(k, s, e).value;
        forall id | id in s'.cancels ensures CallHolds(s', id, s'.cancels[id]) { CallsStay(s, s', id); }
    }
  }

  // ---- The rows, over time -----------------------------------------------------------

  /** How a step of the whole system changes the rows: a row stays, and either keeps its
      generation and moves along the table, or is opened by that generation's own run --
      with its first write, or because there was no row. */
  predicate RowsStep(s: State, s': State) {
    && s'.seen == s.seen + Snapshot(s'.db.rows)
    && (forall j :: j in s.db.rows ==> j in s'.db.rows)
    && (forall j :: j in s'.db.rows ==>
          || (j in s.db.rows && s.db.rows[j].token == s'.db.rows[j].token
              && Edge(s.db.rows[j].status, s'.db.rows[j].status))
          || OpenedBy(s, s', j, s'.db.rows[j].token))
    && (forall x :: x in s.seen && x.token in s'.runs ==> x.token in s.runs)
  }

  /** The run of generation `t` has made its first write since. */
  predicate FirstWrite(s: State, s': State, t: Token) {
    t in s.runs && s.runs[t].pc.PersistQueued? && t in s'.runs && !s'.runs[t].pc.PersistQueued?
  }

  predicate OpenedBy(s: State, s': State, j: Instance, t: Token) {
    && t in s.runs && t in s'.runs && s.runs[t].inst == j
    && (j !in s.db.rows || FirstWrite(s, s', t))
    && (s'.runs[t].pc.PersistQueued? ==> Barred(s'.runs[t]))
  }

  /** What the builder and the result of a run have behind them. */
  predicate BackedByRow(s: State, s': State, t: Token)
    requires t in s'.runs
  {
    var r' := s'.runs[t];
    && (r'.pc.Ready? || Won(r'.pc) ==>
          || (t in s.runs && (r'.pc.Ready? ==> s.runs[t].pc.Ready?) && (Won(r'.pc) ==> Won(s.runs[t].pc)))
          || (r'.inst in s'.db.rows && s'.db.rows[r'.inst].token == t
              && s'.db.rows[r'.inst].status == if r'.pc.Ready? then Building else Success))
    && (r'.began ==> t in s.runs && (s.runs[t].began || s.runs[t].pc.Ready?))
  }

  lemma RunStepRows(k: nat, s: State, t: Token, c: Choice)
    requires Memory(s) && Next(k, s, RunStep(t, c)).Some?
    ensures var s' := Next(k, s, RunStep(t, c)).value; RowsStep(s, s') && BackedByRow(s, s', t)
  {
    hide RunNext, MemOk, Barred, CallHolds;
    var r := s.runs[t];
    RunKeeps(r, t, s.db, k, c);
    RunWrites(r, t, s.db, k, c);
  }

  lemma CancelStepRows(k: nat, s: State, id: nat, c: Choice)
    requires Memory(s) && Next(k, s, CancelStep(id, c)).Some?
    ensures var s' := Next(k, s, CancelStep(id, c)).value; RowsStep(s, s')
  {
    hide CancelTask, CancelRow, MemOk, Barred, Upsert, Update, CancelRequested, TryAcquire;
    var x := s.cancels[id];
    assert CallHolds(s, id, x);
    if !c.Raise? {
      if TaskOf(s, x).Some? {
        var t := TaskOf(s, x).value;
        CancelTaskKeeps(x.pc, t, s.runs[t], s.db, c);
      } else if !x.pc.Enter? {
        CancelRowMoves(x.pc, x.inst, s.db, c);
      }
    }
  }

  lemma CancelStepBacked(k: nat, s: State, id: nat, c: Choice)
    requires Memory(s) && Next(k, s, CancelStep(id, c)).Some?
    ensures var s' := Next(k, s, CancelStep(id, c)).value; forall t :: t in s'.runs ==> BackedByRow(s, s', t)
  {
    hide CancelTask, CancelRow, MemOk, Barred, Upsert, Update, CancelRequested, TryAcquire, Writes, Moves;
    var x := s.cancels[id];
    assert CallHolds(s, id, x);
    if !c.Raise? && TaskOf(s, x).Some? {
      var t := TaskOf(s, x).value;
      CancelTaskKeeps(x.pc, t, s.runs[t], s.db, c);
    }
  }

  lemma StepRows(k: nat, s: State, e: Event)
    requires Memory(s) && Next(k, s, e).Some? && Snapshot(s.db.rows) <= s.seen
    ensures var s' := Next(k, s, e).value;
            RowsStep(s, s') && forall t :: t in s'.runs ==> BackedByRow(s, s', t)
  {
    var s' := Next(k, s, e).value;
    match e {
      case RunStep(t, c) => RunStepRows(k, s, t, c);
      case CancelStep(id, c) =>
        CancelStepRows(k, s, id, c);
        CancelStepBacked(k, s, id, c);
      case _ => assert s.seen + Snapshot(s'.db.rows) == s.seen;
    }
  }

  /** `x` was committed at some time: its row is still there, and if the row still belongs
      to that generation it has only moved along the table since -- unless the run is
      barred, and a run that has not made its first write is. */
  predicate Fits(s: State, x: Seen) {
    && x.inst in s.db.rows
    && (x.token in s.runs ==>
          && s.runs[x.token].inst == x.inst
          && (s.runs[x.token].pc.PersistQueued? ==> Barred(s.runs[x.token])))
    && (s.db.rows[x.inst].token == x.token && !(x.token in s.runs && Barred(s.runs[x.token])) ==>
          Leads(x.status, s.db.rows[x.inst].status))
  }

  predicate HistoryOk(s: State) {
    Snapshot(s.db.rows) <= s.seen && forall x :: x in s.seen ==> Fits(s, x)
  }

  lemma HistoryHolds(s: State, s': State)
    requires HistoryOk(s) && RowsStep(s, s') && RunsGrow(s, s')
    ensures HistoryOk(s')
  {
    hide Barred;
    forall x | x in s'.seen ensures Fits(s', x) {
      if x in s.seen {
        OldEntryFits(s, s', x);
      } else {
        NewEntryFits(s, s', x);
      }
    }
  }

  lemma OldEntryFits(s: State, s': State, x: Seen)
    requires x in s.seen && Fits(s, x) && RowsStep(s, s') && RunsGrow(s, s')
    ensures Fits(s', x)
  {
    hide Barred, Snapshot;
  }

  lemma NewEntryFits(s: State, s': State, x: Seen)
    requires HistoryOk(s) && RowsStep(s, s') && RunsGrow(s, s')
    requires x in Snapshot(s'.db.rows)
    ensures Fits(s', x)
  {
    hide Barred;
    var j := x.inst;
    if j in s.db.rows && s.db.rows[j].token == x.token {
      var before := Seen(j, x.token, s.db.rows[j].status);
      assert before in Snapshot(s.db.rows);
      assert Fits(s, before);
    } else {
      assert OpenedBy(s, s', j, x.token);
    }
  }

  /** A run on its way to a result has its row at success, for good; a run whose builder was
      called has had its row at building. */
  predicate ProofsOk(s: State) {
    forall t :: t in s.runs ==> ProofOk(s, t)
  }

  predicate ProofOk(s: State, t: Token)
    requires t in s.runs
  {
    var r := s.runs[t];
    && (Won(r.pc) ==> Seen(r.inst, t, Success) in s.seen && forall x :: x in s.seen && x.token == t ==> Leads(x.status, Success))
    && (r.began || r.pc.Ready? ==> Seen(r.inst, t, Building) in s.seen)
  }

  lemma ProofHolds(s: State, s': State, t: Token)
    requires t in s'.runs && (t in s.runs ==> ProofOk(s, t))
    requires RowsStep(s, s') && RunsGrow(s, s') && BackedByRow(s, s', t) && HistoryOk(s')
    ensures ProofOk(s', t)
  {
    var r := s'.runs[t];
    if Won(r.pc) {
      var won := Seen(r.inst, t, Success);
      assert won in s'.seen by {
        if !(t in s.runs && Won(s.runs[t].pc)) { assert won in Snapshot(s'.db.rows); }
      }
      assert Fits(s', won);
      forall x | x in s'.seen && x.token == t ensures Leads(x.status, Success) {
        assert Fits(s', x);
        if x !in s.seen || !(t in s.runs && Won(s.runs[t].pc)) {
          assert x in s.seen || x in Snapshot(s'.db.rows);
        }
      }
    }
    if r.pc.Ready? && !(t in s.runs && s.runs[t].pc.Ready?) {
      assert Seen(r.inst, t, Building) in Snapshot(s'.db.rows);
    }
  }

  // ---- The slots ---------------------------------------------------------------------

  /** Where a run has a slot of its own, and where it has none. */
  predicate SlotFits(r: Run) {
    && (r.leaked ==> Ending(r.pc) && r.slot.None?)
    && match r.pc
       case PersistQueued => r.slot.None?
       case FirstTry => r.slot.None?
       case Requeue => r.slot.None?
       case PersistRequeued => r.slot.None?
       case Waiting => r.slot.None?
       case Granted(_) => r.slot.None?
       case Check(site) => if site.AfterFirstTry? || site.AfterWait? then r.slot.None? else r.slot.Some?
       case CheckRow(site) => if site.AfterFirstTry? || site.AfterWait? then r.slot.None? else r.slot.Some?
       case PersistBuilding => r.slot.Some?
       case Ready => r.slot.Some?
       case Executing => r.slot.Some?
       case PersistSuccess => r.slot.Some?
       case ReleaseRest(_) => r.slot.None?
       case Returned => r.slot.None?
       case Raised => r.slot.None?
       case _ => true
  }

  /** The slot whose row a run has: from the grant on, which is before `slot` says so. */
  function Owned(r: Run): Option<nat> {
    if r.pc.Granted? then Some(r.pc.n) else r.slot
  }

  /** What a step of a run does to the slots. */
  datatype SlotEffect = Keeps | Acquires(probe: set<Pid>) | Releases | Leaks | Sweeps

  predicate HasEffect(f: SlotEffect, r: Run, r': Run, db: Tables, db': Tables, k: nat) {
    match f
    case Keeps => db'.slots == db.slots && Owned(r') == Owned(r) && r'.leaked == r.leaked
    case Acquires(probe) =>
      var (after, slot) := TryAcquire(db, probe, k, r.inst, r.pid);
      Owned(r).None? && Owned(r').Some? && slot == Owned(r') && db'.slots == after.slots && r'.leaked == r.leaked
    case Releases =>
      && Owned(r).Some? && Owned(r').None? && db'.slots == Release(db.slots, Owned(r).value, r.pid)
      && r'.leaked == r.leaked
    case Leaks => Owned(r).Some? && Owned(r').None? && db'.slots == db.slots && r'.leaked
    case Sweeps =>
      Owned(r).None? && Owned(r').None? && db'.slots == ReleaseInstance(db.slots, r.inst, r.pid) && !r'.leaked
  }

  function EffectOf(r: Run, r': Run, c: Choice): SlotEffect {
    if Owned(r).None? && Owned(r').Some? && c.Go? then Acquires(c.probe)
    else if Owned(r).Some? && Owned(r').None? then if r'.leaked then Leaks else Releases
    else if r.pc.ReleaseRest? && c.Go? && r.mem in {Cancelled, CancelFailed} then Sweeps
    else Keeps
  }

  lemma RunSlots(r: Run, t: Token, db: Tables, k: nat, c: Choice)
    requires SlotFits(r) && RunNext(r, t, db, k, c).Some?
    ensures var (r', db') := RunNext(r, t, db, k, c).value;
            && SlotFits(r') && HasEffect(EffectOf(r, r', c), r, r', db, db', k)
            && !Finished(r.pc)
  {
    hide CancelRequested, RunQueues, RunSettles, RunBuilds, Update, TryAcquire;
    if c.Go? || c.DbFails? {
      QueueingSlots(r, t, db, k, c);
      SettlingSlots(r, t, db, c);
      BuildingSlots(r, t, db, k, c);
    }
  }

  lemma QueueingSlots(r: Run, t: Token, db: Tables, k: nat, c: Choice)
    requires SlotFits(r) && (c.Go? || c.DbFails?)
    ensures RunQueues(r, t, db, k, c).Some? ==>
              var (r', db') := RunQueues(r, t, db, k, c).value;
              SlotFits(r') && HasEffect(EffectOf(r, r', c), r, r', db, db', k)
  {
    hide RunQueues, SlotFits, HasEffect, EffectOf;
    if Asking(r.pc) {
      AskingSlots(r, t, db, k, c);
    } else {
      MarkingSlots(r, t, db, k, c);
    }
  }

  lemma AskingSlots(r: Run, t: Token, db: Tables, k: nat, c: Choice)
    requires SlotFits(r) && (c.Go? || c.DbFails?) && Asking(r.pc)
    ensures RunQueues(r, t, db, k, c).Some? ==>
              var (r', db') := RunQueues(r, t, db, k, c).value;
              SlotFits(r') && HasEffect(EffectOf(r, r', c), r, r', db, db', k)
  {
    hide Persist, FirstFree;
  }

  lemma MarkingSlots(r: Run, t: Token, db: Tables, k: nat, c: Choice)
    requires SlotFits(r) && (c.Go? || c.DbFails?) && !Asking(r.pc)
    ensures RunQueues(r, t, db, k, c).Some? ==>
              var (r', db') := RunQueues(r, t, db, k, c).value;
              SlotFits(r') && HasEffect(EffectOf(r, r', c), r, r', db, db', k)
  {
    hide Persist, TryAcquire;
  }

  lemma SettlingSlots(r: Run, t: Token, db: Tables, c: Choice)
    requires SlotFits(r) && (c.Go? || c.DbFails?)
    ensures var next := RunSettles(r, t, db, c); next.Some? ==> KeepsSlots(r, next.value.0, db, next.value.1)
  {
    hide RunSettles, SlotFits, KeepsSlots;
    if r.pc.Check? || r.pc.CheckRow? {
      CheckingSlots(r, t, db, c);
    } else {
      EndingSlots(r, t, db, c);
    }
  }

  predicate KeepsSlots(r: Run, r': Run, db: Tables, db': Tables) {
    SlotFits(r') && Owned(r') == Owned(r) && r'.leaked == r.leaked && db'.slots == db.slots && !r.pc.ReleaseRest?
  }

  lemma CheckingSlots(r: Run, t: Token, db: Tables, c: Choice)
    requires SlotFits(r) && (c.Go? || c.DbFails?) && (r.pc.Check? || r.pc.CheckRow?)
    ensures var next := RunSettles(r, t, db, c); next.Some? ==> KeepsSlots(r, next.value.0, db, next.value.1)
  {
    hide Persist, CancelRequested;
  }

  lemma EndingSlots(r: Run, t: Token, db: Tables, c: Choice)
    requires SlotFits(r) && (c.Go? || c.DbFails?) && !r.pc.Check? && !r.pc.CheckRow?
    ensures var next := RunSettles(r, t, db, c); next.Some? ==> KeepsSlots(r, next.value.0, db, next.value.1)
  {
    hide Persist, CancelRequested;
  }

  lemma BuildingSlots(r: Run, t: Token, db: Tables, k: nat, c: Choice)
    requires SlotFits(r) && (c.Go? || c.DbFails?)
    ensures RunBuilds(r, t, db, c).Some? ==>
              var (r', db') := RunBuilds(r, t, db, c).value;
              SlotFits(r') && HasEffect(EffectOf(r, r', c), r, r', db, db', k) && !Finished(r.pc)
  {
    hide Upsert, Release, ReleaseInstance, TryAcquire;
  }

  predicate SlotsOk(k: nat, s: State) {
    && (forall t :: t in s.runs ==> SlotFits(s.runs[t]))
    && (forall n :: n in s.db.slots ==> n < k && SlotAccounted(s, n))
    && (forall t :: t in s.runs ==> OwnsItsSlot(s, t))
    && (forall t, u :: t in s.runs && u in s.runs && t != u ==> Apart(s, t, u))
  }

  /** A live run that has a slot owns the row of that slot. */
  predicate OwnsItsSlot(s: State, t: Token)
    requires t in s.runs
  {
    var r := s.runs[t];
    r.pid in s.alive && Owned(r).Some? ==>
      Owned(r).value in s.db.slots && s.db.slots[Owned(r).value] == SlotRow(r.inst, r.pid)
  }

  /** Two runs never have the same slot, and never both run for one instance in one process. */
  predicate Apart(s: State, t: Token, u: Token)
    requires t in s.runs && u in s.runs
  {
    var r, q := s.runs[t], s.runs[u];
    && (r.pid in s.alive && q.pid in s.alive && Owned(r).Some? ==> Owned(r) != Owned(q))
    && (r.pid == q.pid && r.inst == q.inst ==> Finished(r.pc) || Finished(q.pc))
  }

  /** A slot row of a live process belongs to a run that has it, or could not give it back. */
  predicate SlotAccounted(s: State, n: nat)
    requires n in s.db.slots
  {
    s.db.slots[n].pid in s.alive ==> exists t :: t in s.runs && Accounts(s.runs[t], s.db.slots[n], n)
  }

  predicate Accounts(r: Run, row: SlotRow, n: nat) {
    r.pid == row.pid && r.inst == row.instance && (Owned(r) == Some(n) || r.leaked)
  }

  /** A slot row that survives a step of run `t` and was not `t`'s own stays accounted for. */
  lemma StaysAccounted(s: State, s': State, t: Token, n: nat)
    requires t in s.runs && t in s'.runs && s'.alive == s.alive && s'.runs == s.runs[t := s'.runs[t]]
    requires n in s.db.slots && n in s'.db.slots && s'.db.slots[n] == s.db.slots[n] && SlotAccounted(s, n)
    requires Accounts(s.runs[t], s.db.slots[n], n) ==> Accounts(s'.runs[t], s.db.slots[n], n)
    ensures SlotAccounted(s', n)
  {
    if s.db.slots[n].pid in s.alive {
      var u :| u in s.runs && Accounts(s.runs[u], s.db.slots[n], n);
      assert Accounts(s'.runs[u], s'.db.slots[n], n);
    }
  }

  lemma SlotsAfterRunStep(k: nat, s: State, t: Token, c: Choice)
    requires SlotsOk(k, s) && Memory(s) && Next(k, s, RunStep(t, c)).Some?
    ensures SlotsOk(k, Next(k, s, RunStep(t, c)).value)
  {
    hide RunNext, MemOk, Barred, CallHolds, TasksOk;
    var s' := Next(k, s, RunStep(t, c)).value;
    var r, r' := s.runs[t], s'.runs[t];
    RunKeeps(r, t, s.db, k, c);
    RunSlots(r, t, s.db, k, c);
    SlotStep(k, s, s', t, EffectOf(r, r', c));
  }

  /** One step of a live, unfinished run `t` that changes no other run. */
  predicate StepOf(k: nat, s: State, s': State, t: Token) {
    && SlotsOk(k, s)
    && t in s.runs && t in s'.runs && s'.alive == s.alive && s'.runs == s.runs[t := s'.runs[t]]
    && s.runs[t].pid in s.alive && s'.runs[t].pid == s.runs[t].pid && s'.runs[t].inst == s.runs[t].inst
    && SlotFits(s'.runs[t]) && !Finished(s.runs[t].pc)
  }

  /** The slot part of a step of run `t`, by its effect. */
  lemma SlotStep(k: nat, s: State, s': State, t: Token, f: SlotEffect)
    requires StepOf(k, s, s', t)
    requires HasEffect(f, s.runs[t], s'.runs[t], s.db, s'.db, k)
    requires f.Acquires? ==> s.alive <= f.probe
    ensures SlotsOk(k, s')
  {
    assert Owned(s.runs[t]).Some? ==> !s.runs[t].leaked;
    hide SlotFits;
    match f {
      case Keeps => SlotsKept(k, s, s', t);
      case Acquires(probe) => SlotAcquired(k, s, s', t, probe);
      case Releases => SlotReleased(k, s, s', t);
      case Leaks => SlotsKept(k, s, s', t);
      case Sweeps => SlotsSwept(k, s, s', t);
    }
  }

  lemma SlotsKept(k: nat, s: State, s': State, t: Token)
    requires StepOf(k, s, s', t) && s'.db.slots == s.db.slots
    requires (Owned(s'.runs[t]) == Owned(s.runs[t]) && s'.runs[t].leaked == s.runs[t].leaked)
             || (Owned(s'.runs[t]).None? && s'.runs[t].leaked)
    ensures SlotsOk(k, s')
  {
    hide SlotFits;
    forall n | n in s'.db.slots ensures n < k && SlotAccounted(s', n) { StaysAccounted(s, s', t, n); }
    forall u | u in s'.runs ensures OwnsItsSlot(s', u) { assert OwnsItsSlot(s, u); }
    forall u, v | u in s'.runs && v in s'.runs && u != v ensures Apart(s', u, v) { assert Apart(s, u, v); }
  }

  lemma SlotAcquired(k: nat, s: State, s': State, t: Token, probe: set<Pid>)
    requires StepOf(k, s, s', t) && s.alive <= probe
    requires HasEffect(Acquires(probe), s.runs[t], s'.runs[t], s.db, s'.db, k)
    ensures SlotsOk(k, s')
  {
    var r := s.runs[t];
    GrantedSlotWasFree(s.db, probe, k, r.inst, r.pid);
    hide SlotFits, TryAcquire;
    var slot := Owned(s'.runs[t]).value;
    forall n | n in s'.db.slots ensures n < k && SlotAccounted(s', n) {
      if n == slot {
        assert Accounts(s'.runs[t], s'.db.slots[n], n);
      } else {
        StaysAccounted(s, s', t, n);
      }
    }
    forall u | u in s'.runs ensures OwnsItsSlot(s', u) { assert OwnsItsSlot(s, u); }
    forall u, v | u in s'.runs && v in s'.runs && u != v ensures Apart(s', u, v) {
      assert Apart(s, u, v) && OwnsItsSlot(s, u) && OwnsItsSlot(s, v);
    }
  }

  lemma SlotReleased(k: nat, s: State, s': State, t: Token)
    requires StepOf(k, s, s', t) && !s.runs[t].leaked
    requires HasEffect(Releases, s.runs[t], s'.runs[t], s.db, s'.db, k)
    ensures SlotsOk(k, s')
  {
    hide SlotFits;
    var r := s.runs[t];
    assert OwnsItsSlot(s, t);
    assert s'.db.slots == s.db.slots - {Owned(r).value};
    forall n | n in s'.db.slots ensures n < k && SlotAccounted(s', n) { StaysAccounted(s, s', t, n); }
    forall u | u in s'.runs ensures OwnsItsSlot(s', u) { assert OwnsItsSlot(s, u) && (u != t ==> Apart(s, u, t)); }
    forall u, v | u in s'.runs && v in s'.runs && u != v ensures Apart(s', u, v) { assert Apart(s, u, v); }
  }

  lemma SlotsSwept(k: nat, s: State, s': State, t: Token)
    requires StepOf(k, s, s', t)
    requires HasEffect(Sweeps, s.runs[t], s'.runs[t], s.db, s'.db, k)
    ensures SlotsOk(k, s')
  {
    forall n | n in s'.db.slots ensures n < k && SlotAccounted(s', n) { StaysAccounted(s, s', t, n); }
    forall u | u in s'.runs ensures OwnsItsSlot(s', u) {
      assert OwnsItsSlot(s, u);
      if u != t { assert Apart(s, u, t) && SlotFits(s.runs[u]); }
    }
    forall u, v | u in s'.runs && v in s'.runs && u != v ensures Apart(s', u, v) { assert Apart(s, u, v); }
  }

  /** Steps that touch no slot: a task object rewritten, a run started, a process gone. */
  lemma SlotsUntouched(k: nat, s: State, s': State)
    requires SlotsOk(k, s) && s'.db.slots == s.db.slots && s'.alive <= s.alive
    requires forall t :: t in s.runs ==>
               t in s'.runs && s'.runs[t] == s.runs[t].(mem := s'.runs[t].mem, asked := s'.runs[t].asked)
    requires forall t :: t in s'.runs && t !in s.runs ==>
               Owned(s'.runs[t]).None? && SlotFits(s'.runs[t]) && Idle(s, s'.runs[t].pid, s'.runs[t].inst)
    requires forall t, u :: t in s'.runs && t !in s.runs && u in s'.runs && u !in s.runs ==> t == u
    ensures SlotsOk(k, s')
  {
    forall n | n in s'.db.slots ensures SlotAccounted(s', n) {
      assert SlotAccounted(s, n);
      if s'.db.slots[n].pid in s'.alive {
        var t :| t in s.runs && Accounts(s.runs[t], s.db.slots[n], n);
        assert Accounts(s'.runs[t], s'.db.slots[n], n);
      }
    }
    forall t | t in s'.runs ensures SlotFits(s'.runs[t]) && OwnsItsSlot(s', t) {
      if t in s.runs { assert SlotFits(s.runs[t]) && OwnsItsSlot(s, t); }
    }
    hide SlotFits;
    forall t, u | t in s'.runs && u in s'.runs && t != u ensures Apart(s', t, u) {
      if t in s.runs && u in s.runs { assert Apart(s, t, u); }
    }
  }

  lemma SlotsAfterCancelStep(k: nat, s: State, id: nat, c: Choice)
    requires SlotsOk(k, s) && Memory(s) && Next(k, s, CancelStep(id, c)).Some?
    ensures SlotsOk(k, Next(k, s, CancelStep(id, c)).value)
  {
    hide CancelTask, CancelRow, MemOk, Barred, SlotFits;
    var x := s.cancels[id];
    assert CallHolds(s, id, x);
    if !c.Raise? {
      if TaskOf(s, x).Some? {
        CancelTaskKeeps(x.pc, TaskOf(s, x).value, s.runs[TaskOf(s, x).value], s.db, c);
      } else if !x.pc.Enter? {
        CancelRowMoves(x.pc, x.inst, s.db, c);
      }
    }
    hide SlotsOk;
    SlotsUntouched(k, s, Next(k, s, CancelStep(id, c)).value);
  }

  // ---- The end of a run ------------------------------------------------------------------

  /** What the last row write of a run leaves behind, if it was made: the row of another
      generation, a row at its end, or one that is left at cancelling by a run that failed. */
  predicate EndFits(r: Run, t: Token, rows: Rows) {
    Ending(r.pc) && !r.unsaved ==>
      && r.inst in rows
      && (rows[r.inst].token == t ==>
            Terminal(rows[r.inst].status) || (rows[r.inst].status == Cancelling && r.mem == Failed))
  }

  predicate EndsOk(s: State) {
    forall t :: t in s.runs ==> EndFits(s.runs[t], t, s.db.rows)
  }

  lemma RunEnds(r: Run, t: Token, db: Tables, k: nat, c: Choice)
    requires MemOk(r) && EndFits(r, t, db.rows) && RunNext(r, t, db, k, c).Some?
    ensures var (r', db') := RunNext(r, t, db, k, c).value; EndFits(r', t, db'.rows)
  {
    hide CancelRequested, RunQueues, RunSettles, RunBuilds, Update;
    if c.Go? || c.DbFails? {
      QueueingEnds(r, t, db, k, c);
      SettlingEnds(r, t, db, c);
      BuildingEnds(r, t, db, c);
    }
  }

  lemma QueueingEnds(r: Run, t: Token, db: Tables, k: nat, c: Choice)
    requires c.Go? || c.DbFails?
    ensures RunQueues(r, t, db, k, c).Some? ==> !Ending(RunQueues(r, t, db, k, c).value.0.pc)
  {
    hide TryAcquire, Persist;
  }

  /** A last row write that is made leaves the run's row at its end, or at cancelling. */
  lemma LastWriteFits(rows: Rows, r: Run, t: Token, s: Status, c: Choice)
    requires (c.Go? || c.DbFails?) && s in {Cancelled, Failed}
    ensures var rows' := Persist(rows, r, t, s, false, c).0;
            c.Go? ==>
              && r.inst in rows'
              && (rows'[r.inst].token == t ==>
                    || Terminal(rows'[r.inst].status)
                    || (rows'[r.inst].status == Cancelling && s == Failed))
  {
    hide Coalesce;
  }

  lemma SettlingEnds(r: Run, t: Token, db: Tables, c: Choice)
    requires (c.Go? || c.DbFails?) && MemOk(r)
    ensures RunSettles(r, t, db, c).Some? ==>
              var (r', db') := RunSettles(r, t, db, c).value; EndFits(r', t, db'.rows)
  {
    hide RunSettles, EndFits;
    if r.pc.PersistBuilderCancelled? || r.pc.PersistFailing? {
      SavingEnds(r, t, db, c);
    } else {
      SettlingGoesOn(r, t, db, c);
    }
  }

  lemma SavingEnds(r: Run, t: Token, db: Tables, c: Choice)
    requires (c.Go? || c.DbFails?) && MemOk(r) && (r.pc.PersistBuilderCancelled? || r.pc.PersistFailing?)
    ensures var next := RunSettles(r, t, db, c); next.Some? && EndFits(next.value.0, t, next.value.1.rows)
  {
    hide Persist, CancelRequested;
    LastWriteFits(db.rows, r, t, if r.pc.PersistFailing? then r.pc.status else Cancelled, c);
  }

  lemma SettlingGoesOn(r: Run, t: Token, db: Tables, c: Choice)
    requires (c.Go? || c.DbFails?) && !r.pc.PersistBuilderCancelled? && !r.pc.PersistFailing?
    ensures var next := RunSettles(r, t, db, c); next.Some? ==> EndFits(next.value.0, t, next.value.1.rows)
  {
    hide Persist, CancelRequested;
  }

  lemma BuildingEnds(r: Run, t: Token, db: Tables, c: Choice)
    requires (c.Go? || c.DbFails?) && EndFits(r, t, db.rows)
    ensures RunBuilds(r, t, db, c).Some? ==>
              var (r', db') := RunBuilds(r, t, db, c).value; EndFits(r', t, db'.rows)
  {
    hide Persist, Release, ReleaseInstance;
    PersistWrites(db.rows, r, t, if r.pc.PersistBuilding? then Building else Success, false, c);
    hide Writes;
  }

  /** The steps of others do not undo it: they move the row along the table, or take it over. */
  lemma EndKept(s: State, s': State, t: Token)
    requires t in s.runs && t in s'.runs && EndFits(s.runs[t], t, s.db.rows) && RowsStep(s, s')
    requires s'.runs[t] == s.runs[t].(mem := s'.runs[t].mem, asked := s'.runs[t].asked)
    requires Terminal(s.runs[t].mem) ==> s'.runs[t].mem == s.runs[t].mem
    ensures EndFits(s'.runs[t], t, s'.db.rows)
  {
    hide Barred, Snapshot;
  }

  lemma EndsHold(k: nat, s: State, e: Event)
    requires Memory(s) && EndsOk(s) && Snapshot(s.db.rows) <= s.seen && Next(k, s, e).Some?
    ensures EndsOk(Next(k, s, e).value)
  {
    var s' := Next(k, s, e).value;
    StepRows(k, s, e);
    hide EndFits, RowsStep, BackedByRow, MemOk, Barred, CallHolds;
    match e {
      case RunStep(t, c) =>
        hide RunNext;
        RunEnds(s.runs[t], t, s.db, k, c);
        forall u | u in s'.runs && u != t ensures EndFits(s'.runs[u], u, s'.db.rows) { EndKept(s, s', u); }
      case CancelStep(id, c) =>
        CancelKeepsEnds(k, s, id, c);
        hide Next;
        forall u | u in s'.runs ensures EndFits(s'.runs[u], u, s'.db.rows) { EndKept(s, s', u); }
      case Start(t, _, _) =>
        forall u | u in s'.runs ensures EndFits(s'.runs[u], u, s'.db.rows) {
          if u == t { NewRunFits(s'.runs[t], t, s'.db.rows); } else { EndKept(s, s', u); }
        }
      case _ =>
    }
  }

  lemma NewRunFits(r: Run, t: Token, rows: Rows)
    requires r.pc.PersistQueued?
    ensures EndFits(r, t, rows)
  {
  }

  lemma CancelKeepsEnds(k: nat, s: State, id: nat, c: Choice)
    requires Memory(s) && Next(k, s, CancelStep(id, c)).Some?
    ensures var s' := Next(k, s, CancelStep(id, c)).value;
            && s'.runs.Keys == s.runs.Keys
            && forall t :: t in s.runs ==>
                 && s'.runs[t] == s.runs[t].(mem := s'.runs[t].mem, asked := s'.runs[t].asked)
                 && (Terminal(s.runs[t].mem) ==> s'.runs[t].mem == s.runs[t].mem)
  {
    hide CancelTask, CancelRow, MemOk, Barred;
    var x := s.cancels[id];
    assert CallHolds(s, id, x);
    if !c.Raise? && TaskOf(s, x).Some? {
      CancelTaskKeeps(x.pc, TaskOf(s, x).value, s.runs[TaskOf(s, x).value], s.db, c);
    }
  }

  /** What the last row write of a run that raised does to a row that is its own: it ends it,
      except exactly when the row says cancelling and the task object says failed. */
  lemma LastWriteEndsIff(r: Run, t: Token, db: Tables, k: nat, probe: set<Pid>)
    requires MemOk(r) && r.pc.PersistFailing? && r.inst in db.rows && db.rows[r.inst].token == t
    ensures RunNext(r, t, db, k, Go(probe)).Some?
    ensures var (r', db') := RunNext(r, t, db, k, Go(probe)).value;
            && r.inst in db'.rows && db'.rows[r.inst].token == t && Ending(r'.pc) && !r'.unsaved
            && (Terminal(db'.rows[r.inst].status) <==> !(db.rows[r.inst].status == Cancelling && r.mem == Failed))
            && (!Terminal(db'.rows[r.inst].status) ==> db'.rows == db.rows)
  {
  }

  // ---- Everything together --------------------------------------------------------------

  predicate Inv(k: nat, s: State) {
    Memory(s) && HistoryOk(s) && ProofsOk(s) && SlotsOk(k, s) && EndsOk(s)
  }

  lemma InvAtStart(k: nat, s: State)
    requires Init(k, s)
    ensures Inv(k, s)
  {
  }

  lemma SlotsHold(k: nat, s: State, e: Event)
    requires SlotsOk(k, s) && Memory(s) && Next(k, s, e).Some?
    ensures SlotsOk(k, Next(k, s, e).value)
  {
    match e {
      case RunStep(t, c) => SlotsAfterRunStep(k, s, t, c);
      case CancelStep(id, c) => SlotsAfterCancelStep(k, s, id, c);
      case _ =>
        hide SlotsOk;
        SlotsUntouched(k, s, Next(k, s, e).value);
    }
  }

  /** The invariant of every interleaving. */
  lemma InvHolds(k: nat, s: State, e: Event)
    requires Inv(k, s) && Next(k, s, e).Some?
    ensures Inv(k, Next(k, s, e).value)
  {
    var s' := Next(k, s, e).value;
    hide Next, RowsStep, RunsGrow, TasksOk, RunsOk, CallsOk, Fits, ProofOk, SlotsOk, EndsOk;
    MemoryHolds(k, s, e);
    StepRows(k, s, e);
    SlotsHold(k, s, e);
    EndsHold(k, s, e);
    HistoryHolds(s, s');
    forall t | t in s'.runs ensures ProofOk(s', t) {
      ProofHolds(s, s', t);
    }
  }
}
