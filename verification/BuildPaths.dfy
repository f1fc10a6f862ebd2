/**
The build queue when nothing gets in between: what a run and a cancel come to from call to end,
said of the tables they find and leave.  `BuildTheorems` says what can never happen, whatever acts
in between; here is what does happen when nothing does.
*/
module BuildPaths {
  import opened Wrappers
  import opened BuildTasks
  import opened BuildProtocol

  /** `n` steps of a run, one after another, each meeting the same. */
  function Steps(r: Run, t: Token, db: Tables, k: nat, c: Choice, n: nat): Option<(Run, Tables)> {
    if n == 0 then Some((r, db))
    else
      match Steps(r, t, db, k, c, n - 1)
      case None => None
      case Some((r', db')) => RunNext(r', t, db', k, c)
  }

  /** A run just started. */
  function Fresh(pid: Pid, inst: Instance): Run {
    Run(pid, inst, Queued, false, None, PersistQueued, false, false, false)
  }

  /** The row of a run that nobody has asked to cancel. */
  function Row(t: Token, pid: Pid, status: Status): TaskRow {
    TaskRow(t, status, pid, Worker(None, None, None), false)
  }

  /** Some slot is free, or its owner is not alive. */
  predicate HasRoom(slots: Slots, probe: set<Pid>, k: nat) {
    exists n: nat :: n < k && (n !in slots || slots[n].pid !in probe)
  }

  /** The first attempt: the row is queued; with room the run has a slot and the rows of dead
      owners are settled, without room it asks whether it was cancelled. */
  lemma FirstAttempt(t: Token, pid: Pid, inst: Instance, db: Tables, k: nat, probe: set<Pid>)
    requires pid in probe && (inst in db.rows ==> db.rows[inst].token != t)
    ensures var s := Steps(Fresh(pid, inst), t, db, k, Go(probe), 2);
            && s.Some?
            && var (r, db') := s.value;
            && var queued := db.rows[inst := Row(t, pid, Queued)];
            && if HasRoom(db.slots, probe, k)
               then exists n: nat ::
                      && r == Fresh(pid, inst).(pc := Granted(n)) && n < k
                      && (n in db.slots ==> db.slots[n].pid !in probe)
                      && db'.slots == LiveSlots(db.slots, probe)[n := SlotRow(inst, pid)]
                      && RowsSettled(queued, db'.rows, probe)
               else r == Fresh(pid, inst).(pc := Check(AfterFirstTry)) && db' == db.(rows := queued)
  {
    var r, c := Fresh(pid, inst), Go(probe);
    var queued := db.rows[inst := Row(t, pid, Queued)];
    var db1 := db.(rows := queued);
    assert Steps(r, t, db, k, c, 0) == Some((r, db));
    assert Steps(r, t, db, k, c, 1) == Some((r.(pc := FirstTry), db1));
    assert Steps(r, t, db, k, c, 2) == RunNext(r.(pc := FirstTry), t, db1, k, c);
    var (db', slot) := TryAcquire(db1, probe, k, inst, pid);
    TurnedAwayIffFull(db1, probe, k, inst, pid);
    GrantSettlesDeadOwners(db1, probe, k, inst, pid);
    if slot.Some? {
      GrantedSlotWasFree(db1, probe, k, inst, pid);
      assert db'.slots == LiveSlots(db.slots, probe)[slot.value := SlotRow(inst, pid)];
    }
  }

  // ---- Pieces of a path ------------------------------------------------------------------------

  lemma {:induction false} StepsAdd(r: Run, t: Token, db: Tables, k: nat, c: Choice, m: nat, n: nat)
    ensures Steps(r, t, db, k, c, m + n)
            == match Steps(r, t, db, k, c, m)
               case None => None
               case Some((r', db')) => Steps(r', t, db', k, c, n)
    decreases n
  {
    hide RunNext;
    if n > 0 {
      StepsAdd(r, t, db, k, c, m, n - 1);
    } else {
      assert m + n == m;
    }
    StepsOfNothing(r, t, db, k, c, n);
  }

  lemma {:induction false} StepsOfNothing(r: Run, t: Token, db: Tables, k: nat, c: Choice, n: nat)
    ensures Steps(r, t, db, k, c, n).None? ==> Steps(r, t, db, k, c, n + 1).None?
  {
  }

  /** A row of the run's generation, given another status. */
  function Marked(row: TaskRow, r: Run, status: Status): TaskRow {
    row.(status := status, owner := r.pid, cancelRequested := row.cancelRequested || r.asked)
  }

  /** The row of the generation may be given the status. */
  predicate MayBecome(rows: Rows, inst: Instance, t: Token, status: Status) {
    inst in rows && rows[inst].token == t && (rows[inst].status, status) in EDGES
  }

  lemma PersistIs(rows: Rows, r: Run, t: Token, status: Status, probe: set<Pid>)
    requires MayBecome(rows, r.inst, t, status)
    ensures Persist(rows, r, t, status, false, Go(probe)) == (rows[r.inst := Marked(rows[r.inst], r, status)], true)
  {
    UpsertIs(rows, r.inst, RowOf(r, t, status), false);
    var (rows', _) := Persist(rows, r, t, status, false, Go(probe));
    assert rows' == rows[r.inst := Marked(rows[r.inst], r, status)];
  }

  /** The slots that are not this process's for the instance. */
  function OthersSlots(slots: Slots, inst: Instance, pid: Pid): Slots {
    map n | n in slots && !(slots[n].instance == inst && slots[n].pid == pid) :: slots[n]
  }

  /** The run's slot, if it has one, is its own. */
  predicate OwnsSlot(r: Run, slots: Slots) {
    r.slot.Some? ==> r.slot.value in slots && slots[r.slot.value] == SlotRow(r.inst, r.pid)
  }

  /** What is left of the slots when the run is over: after a cancel none of its process for the
      instance, and otherwise all but its own. */
  function SlotsLeft(r: Run, slots: Slots): Slots {
    if r.mem in {Cancelled, CancelFailed} then OthersSlots(slots, r.inst, r.pid)
    else if r.slot.Some? then slots - {r.slot.value}
    else slots
  }

  /** A run whose last write is made, and how it then is when it is over. */
  function Over(r: Run, ok: bool): Run {
    r.(pc := if ok then Returned else Raised, slot := None, leaked := r.leaked && r.mem !in {Cancelled, CancelFailed})
  }

  lemma SlotGoes(r: Run, t: Token, db: Tables, k: nat, probe: set<Pid>, ok: bool)
    requires r.pc == ReleaseSlot(ok) && OwnsSlot(r, db.slots)
    ensures RunNext(r, t, db, k, Go(probe))
            == Some((r.(pc := ReleaseRest(ok), slot := None),
                     db.(slots := if r.slot.Some? then db.slots - {r.slot.value} else db.slots)))
  {
    hide TryAcquire;
  }

  lemma RestGoes(r: Run, t: Token, db: Tables, k: nat, probe: set<Pid>, ok: bool)
    requires r.pc == ReleaseRest(ok) && r.slot == None
    ensures RunNext(r, t, db, k, Go(probe)) == Some((Over(r, ok), db.(slots := SlotsLeft(r, db.slots))))
  {
    assert ReleaseInstance(db.slots, r.inst, r.pid) == OthersSlots(db.slots, r.inst, r.pid);
    hide TryAcquire;
  }

  lemma Leaves(r: Run, t: Token, db: Tables, k: nat, probe: set<Pid>, ok: bool)
    requires r.pc == ReleaseSlot(ok) && OwnsSlot(r, db.slots)
    ensures Steps(r, t, db, k, Go(probe), 2) == Some((Over(r, ok), db.(slots := SlotsLeft(r, db.slots))))
  {
    var c := Go(probe);
    var r1 := r.(pc := ReleaseRest(ok), slot := None);
    var db1 := db.(slots := if r.slot.Some? then db.slots - {r.slot.value} else db.slots);
    SlotGoes(r, t, db, k, probe, ok);
    RestGoes(r1, t, db1, k, probe, ok);
    hide RunNext;
    assert OthersSlots(db1.slots, r.inst, r.pid) == OthersSlots(db.slots, r.inst, r.pid);
    assert Steps(r, t, db, k, c, 0) == Some((r, db));
    assert Steps(r, t, db, k, c, 1) == Some((r1, db1));
  }

  function EndOf(mem: Status): Status {
    if mem in {Cancelled, Cancelling} then Cancelled else Failed
  }

  lemma FailingIsWritten(r: Run, t: Token, db: Tables, k: nat, probe: set<Pid>)
    requires r.pc == Failing && MayBecome(db.rows, r.inst, t, EndOf(r.mem))
    ensures Steps(r, t, db, k, Go(probe), 2)
            == Some((r.(mem := EndOf(r.mem), pc := ReleaseSlot(false), unsaved := false),
                     db.(rows := db.rows[r.inst := Marked(db.rows[r.inst], r, EndOf(r.mem))])))
  {
    var c := Go(probe);
    var status := EndOf(r.mem);
    var r1 := r.(mem := status, pc := PersistFailing(status));
    PersistIs(db.rows, r1, t, status, probe);
    hide TryAcquire, Persist, MayBecome;
    assert Steps(r, t, db, k, c, 0) == Some((r, db));
    assert Steps(r, t, db, k, c, 1) == Some((r1, db));
  }

  lemma TwoFirst(r: Run, t: Token, db: Tables, k: nat, c: Choice, r': Run, db': Tables, n: nat)
    requires Steps(r, t, db, k, c, 2) == Some((r', db'))
    ensures Steps(r, t, db, k, c, n + 2) == Steps(r', t, db', k, c, n)
  {
    hide *;
    StepsAdd(r, t, db, k, c, 2, n);
  }

  lemma OwnsIs(r: Run, r2: Run, slots: Slots)
    requires r2 == r.(mem := r2.mem, pc := r2.pc, unsaved := r2.unsaved)
    ensures OwnsSlot(r2, slots) <==> OwnsSlot(r, slots)
    ensures var ended := r.(mem := r2.mem, unsaved := r2.unsaved);
            Over(ended, false) == Over(r2, false) && SlotsLeft(ended, slots) == SlotsLeft(r2, slots)
  {
    hide OthersSlots;
  }

  /** An exception on its way out ends the row, gives the slot back, and goes on. */
  lemma FailingEnds(r: Run, t: Token, db: Tables, k: nat, probe: set<Pid>)
    requires r.pc == Failing && OwnsSlot(r, db.slots) && MayBecome(db.rows, r.inst, t, EndOf(r.mem))
    ensures var ended := r.(mem := EndOf(r.mem), unsaved := false);
            Steps(r, t, db, k, Go(probe), 4)
            == Some((Over(ended, false),
                     Tables(SlotsLeft(ended, db.slots), db.rows[r.inst := Marked(db.rows[r.inst], r, EndOf(r.mem))])))
  {
    var r2 := r.(mem := EndOf(r.mem), pc := ReleaseSlot(false), unsaved := false);
    var db2 := db.(rows := db.rows[r.inst := Marked(db.rows[r.inst], r, EndOf(r.mem))]);
    hide *;
    FailingIsWritten(r, t, db, k, probe);
    OwnsIs(r, r2, db.slots);
    Leaves(r2, t, db2, k, probe, false);
    TwoFirst(r, t, db, k, Go(probe), r2, db2, 2);
  }

  /** The run has slot `n`, and the row of its generation says `status`. */
  predicate Has(db: Tables, t: Token, pid: Pid, inst: Instance, n: nat, status: Status) {
    n in db.slots && db.slots[n] == SlotRow(inst, pid) && inst in db.rows && db.rows[inst] == Row(t, pid, status)
  }

  /** With a slot and no cancel, the builder is called once the row says building. */
  lemma BuilderIsCalled(t: Token, pid: Pid, inst: Instance, n: nat, db: Tables, k: nat, probe: set<Pid>)
    requires Has(db, t, pid, inst, n, Queued)
    ensures Steps(Fresh(pid, inst).(pc := Granted(n)), t, db, k, Go(probe), 5)
            == Some((InBuilder(pid, inst, n), db.(rows := db.rows[inst := Row(t, pid, Building)])))
  {
    var r, c := Fresh(pid, inst).(pc := Granted(n)), Go(probe);
    var r1 := r.(slot := Some(n), pc := Check(BeforeBuild));
    var r3 := r1.(mem := Building, pc := PersistBuilding);
    var db' := db.(rows := db.rows[inst := Row(t, pid, Building)]);
    PersistIs(db.rows, r3, t, Building, probe);
    hide TryAcquire, Persist;
    assert Steps(r, t, db, k, c, 0) == Some((r, db));
    assert Steps(r, t, db, k, c, 1) == Some((r1, db));
    assert Steps(r, t, db, k, c, 2) == Some((r1.(pc := CheckRow(BeforeBuild)), db));
    assert Steps(r, t, db, k, c, 3) == Some((r3, db));
    assert Steps(r, t, db, k, c, 4) == Some((r3.(pc := Ready), db'));
    assert Steps(r, t, db, k, c, 5) == Some((r3.(pc := Executing, began := true), db'));
  }

  /** A run inside its builder. */
  function InBuilder(pid: Pid, inst: Instance, n: nat): Run {
    Run(pid, inst, Building, false, Some(n), Executing, true, false, false)
  }

  /** When the builder returns, the result is returned with the row at success and the slot given
      back. */
  lemma ResultIsReturned(t: Token, pid: Pid, inst: Instance, n: nat, db: Tables, k: nat, probe: set<Pid>)
    requires Has(db, t, pid, inst, n, Building)
    ensures Steps(InBuilder(pid, inst, n), t, db, k, Go(probe), 6)
            == Some((InBuilder(pid, inst, n).(mem := Success, slot := None, pc := Returned),
                     Tables(db.slots - {n}, db.rows[inst := Row(t, pid, Success)])))
  {
    var r, c := InBuilder(pid, inst, n), Go(probe);
    var r3 := r.(mem := Success, pc := PersistSuccess);
    var r4 := r3.(pc := ReleaseSlot(true));
    var db4 := db.(rows := db.rows[inst := Row(t, pid, Success)]);
    PersistIs(db.rows, r3, t, Success, probe);
    hide TryAcquire, Persist;
    assert Steps(r, t, db, k, c, 0) == Some((r, db));
    assert Steps(r, t, db, k, c, 1) == Some((r.(pc := Check(AfterBuild)), db));
    assert Steps(r, t, db, k, c, 2) == Some((r.(pc := CheckRow(AfterBuild)), db));
    assert Steps(r, t, db, k, c, 3) == Some((r3, db));
    assert Steps(r, t, db, k, c, 4) == Some((r4, db4));
    Leaves(r4, t, db4, k, probe, true);
    StepsAdd(r, t, db, k, c, 4, 2);
  }

  /** When it raises, the row says failed, or cancelled if that is what it raised; the slot is
      given back; and the exception goes on. */
  lemma BuilderRaises(t: Token, pid: Pid, inst: Instance, n: nat, db: Tables, k: nat, probe: set<Pid>)
    requires Has(db, t, pid, inst, n, Building)
    ensures var r, after := InBuilder(pid, inst, n), RunNext(InBuilder(pid, inst, n), t, db, k, Raise);
            && after.Some? && after.value.1 == db
            && Steps(after.value.0, t, db, k, Go(probe), 4)
               == Some((r.(mem := Failed, slot := None, pc := Raised),
                        Tables(db.slots - {n}, db.rows[inst := Row(t, pid, Failed)])))
  {
    hide TryAcquire, Steps;
    FailingEnds(InBuilder(pid, inst, n).(pc := Failing), t, db, k, probe);
  }

  lemma BuilderGivesUp(t: Token, pid: Pid, inst: Instance, n: nat, db: Tables, k: nat, probe: set<Pid>)
    requires Has(db, t, pid, inst, n, Building)
    ensures var r, after := InBuilder(pid, inst, n), RunNext(InBuilder(pid, inst, n), t, db, k, BuilderCancels);
            && after.Some? && after.value.1 == db
            && Steps(after.value.0, t, db, k, Go(probe), 4)
               == Some((r.(mem := Cancelled, slot := None, pc := Raised),
                        Tables(OthersSlots(db.slots, inst, pid), db.rows[inst := Row(t, pid, Cancelled)])))
  {
    var c := Go(probe);
    var r := InBuilder(pid, inst, n).(pc := BuilderCancelled);
    var r1 := r.(mem := Cancelled, pc := PersistBuilderCancelled);
    var r2 := r1.(pc := ReleaseSlot(false));
    var db2 := db.(rows := db.rows[inst := Row(t, pid, Cancelled)]);
    PersistIs(db.rows, r1, t, Cancelled, probe);
    hide TryAcquire, Persist;
    assert Steps(r, t, db, k, c, 0) == Some((r, db));
    assert Steps(r, t, db, k, c, 1) == Some((r1, db));
    assert Steps(r, t, db, k, c, 2) == Some((r2, db2));
    Leaves(r2, t, db2, k, probe, false);
    StepsAdd(r, t, db, k, c, 2, 2);
  }

  /** Inside the builder the worker is written into the row and taken out of it. */
  lemma WorkerIsRecorded(t: Token, pid: Pid, inst: Instance, n: nat, db: Tables, k: nat, w: Worker)
    requires inst in db.rows && db.rows[inst].token == t
    ensures var recorded := RunNext(InBuilder(pid, inst, n), t, db, k, RecordWorker(w));
            && recorded.Some? && recorded.value.0 == InBuilder(pid, inst, n)
            && recorded.value.1 == db.(rows := recorded.value.1.rows) && OnlyRow(db.rows, recorded.value.1.rows, inst)
            && WorkerKept(db.rows[inst].worker, w, recorded.value.1.rows[inst].worker)
            && recorded.value.1.rows[inst] == db.rows[inst].(worker := recorded.value.1.rows[inst].worker)
    ensures RunNext(InBuilder(pid, inst, n), t, db, k, ClearWorker)
            == Some((InBuilder(pid, inst, n), db.(rows := db.rows[inst := db.rows[inst].(worker := Worker(None, None, None))])))
  {
    UpdateIs(db.rows, inst, t, Change(None, w, false, false));
    UpdateIs(db.rows, inst, t, Change(None, NO_WORKER, false, true));
  }

  /** Without room and without a cancel, the run waits with its row queued. */
  lemma WaitsInTheQueue(t: Token, pid: Pid, inst: Instance, db: Tables, k: nat, probe: set<Pid>)
    requires inst in db.rows && db.rows[inst] == Row(t, pid, Queued)
    ensures Steps(Fresh(pid, inst).(pc := Check(AfterFirstTry)), t, db, k, Go(probe), 4)
            == Some((Fresh(pid, inst).(pc := Waiting), db))
  {
    var r, c := Fresh(pid, inst), Go(probe);
    var r0 := r.(pc := Check(AfterFirstTry));
    hide TryAcquire;
    assert db.rows[inst := Row(t, pid, Queued)] == db.rows;
    assert Steps(r0, t, db, k, c, 0) == Some((r0, db));
    assert Steps(r0, t, db, k, c, 1) == Some((r.(pc := CheckRow(AfterFirstTry)), db));
    assert Steps(r0, t, db, k, c, 2) == Some((r.(pc := Requeue), db));
    assert Steps(r0, t, db, k, c, 3) == Some((r.(pc := PersistRequeued), db));
    assert Steps(r0, t, db, k, c, 4) == Some((r.(pc := Waiting), db));
  }

  /** A run already cancelled waits without writing its row again; the acquire loop then sees the
      cancel there. */
  lemma RequeueIs(r: Run, t: Token, db: Tables, k: nat, probe: set<Pid>)
    ensures r.pc == Requeue ==>
              RunNext(r, t, db, k, Go(probe))
              == Some((if r.mem == Cancelled then r.(pc := Waiting) else r.(mem := Queued, pc := PersistRequeued), db))
    ensures r.pc == PersistRequeued && MayBecome(db.rows, r.inst, t, Queued) ==>
              RunNext(r, t, db, k, Go(probe))
              == Some((r.(pc := Waiting), db.(rows := db.rows[r.inst := Marked(db.rows[r.inst], r, Queued)])))
  {
    if r.pc == PersistRequeued && MayBecome(db.rows, r.inst, t, Queued) {
      PersistIs(db.rows, r, t, Queued, probe);
    }
    hide TryAcquire, Persist, MayBecome;
  }

  /** It tries again as long as it waits, and goes on exactly when there is room. */
  lemma TriesAgain(r: Run, t: Token, db: Tables, k: nat, probe: set<Pid>)
    requires r.pc == Waiting
    ensures var s := RunNext(r, t, db, k, Go(probe));
            && s.Some?
            && if HasRoom(db.slots, probe, k)
               then exists n: nat ::
                      && s.value.0 == r.(pc := Granted(n)) && n < k
                      && (n in db.slots ==> db.slots[n].pid !in probe)
                      && s.value.1.slots == LiveSlots(db.slots, probe)[n := SlotRow(r.inst, r.pid)]
                      && RowsSettled(db.rows, s.value.1.rows, probe)
               else s.value == (r, db)
    ensures RunNext(r, t, db, k, DbFails) == Some((r, db))
    ensures RunNext(r, t, db, k, SeesCancel).Some? <==> RowAsks(db.rows, r.inst, t)
  {
    TurnedAwayIffFull(db, probe, k, r.inst, r.pid);
    GrantSettlesDeadOwners(db, probe, k, r.inst, r.pid);
    var (db', slot) := TryAcquire(db, probe, k, r.inst, r.pid);
    if slot.Some? {
      GrantedSlotWasFree(db, probe, k, r.inst, r.pid);
    }
  }

  /** When the time is up and there is still no cancel, the row says failed. */
  lemma TimesOutInTheQueue(t: Token, pid: Pid, inst: Instance, db: Tables, k: nat, probe: set<Pid>)
    requires inst in db.rows && db.rows[inst] == Row(t, pid, Queued)
    ensures var r, after := Fresh(pid, inst).(pc := Waiting), RunNext(Fresh(pid, inst).(pc := Waiting), t, db, k, TimesOut);
            && after.Some? && after.value.1 == db
            && Steps(after.value.0, t, db, k, Go(probe), 8)
               == Some((r.(mem := Failed, pc := Raised), db.(rows := db.rows[inst := Row(t, pid, Failed)])))
  {
    var c := Go(probe);
    var r := Fresh(pid, inst).(pc := Check(AfterWait));
    var r4 := r.(mem := Failed, pc := Failing);
    var db4 := db.(rows := db.rows[inst := Row(t, pid, Failed)]);
    PersistIs(db.rows, r4, t, Failed, probe);
    PersistIs(db.rows, r4.(pc := PersistTimedOut), t, Failed, probe);
    hide TryAcquire, Persist;
    assert Steps(r, t, db, k, c, 0) == Some((r, db));
    assert Steps(r, t, db, k, c, 1) == Some((r.(pc := CheckRow(AfterWait)), db));
    assert Steps(r, t, db, k, c, 2) == Some((r.(pc := TimedOut), db));
    assert Steps(r, t, db, k, c, 3) == Some((r.(mem := Failed, pc := PersistTimedOut), db));
    assert Steps(r, t, db, k, c, 4) == Some((r4, db4));
    FailingEnds(r4, t, db4, k, probe);
    assert db4.rows[inst := Row(t, pid, Failed)] == db4.rows;
    StepsAdd(r, t, db, k, c, 4, 4);
  }

  /** A run that finds itself cancelled, wherever it looks, ends with an exception, its row at
      cancelled, and no slot of its process for the instance. */
  lemma CancelledRunEnds(r: Run, site: Site, t: Token, db: Tables, k: nat, probe: set<Pid>)
    requires r.pc == Check(site) && r.mem in {Cancelled, Cancelling} && OwnsSlot(r, db.slots)
    requires MayBecome(db.rows, r.inst, t, Cancelled)
    ensures Steps(r, t, db, k, Go(probe), 6)
            == Some((Over(r.(mem := Cancelled, unsaved := false), false),
                     Tables(OthersSlots(db.slots, r.inst, r.pid), db.rows[r.inst := Marked(db.rows[r.inst], r, Cancelled)])))
  {
    var c := Go(probe);
    var r2 := r.(mem := Cancelled, pc := Failing);
    var db2 := db.(rows := db.rows[r.inst := Marked(db.rows[r.inst], r, Cancelled)]);
    hide *;
    CancelIsSettled(r, site, t, db, k, probe);
    CancelledAlready(r, r2, t, db, db2);
    FailingEnds(r2, t, db2, k, probe);
    TwoFirst(r, t, db, k, c, r2, db2, 4);
  }

  lemma CancelledAlready(r: Run, r2: Run, t: Token, db: Tables, db2: Tables)
    requires r2 == r.(mem := Cancelled, pc := Failing) && MayBecome(db.rows, r.inst, t, Cancelled)
    requires db2 == db.(rows := db.rows[r.inst := Marked(db.rows[r.inst], r, Cancelled)])
    ensures MayBecome(db2.rows, r.inst, t, Cancelled) && EndOf(Cancelled) == Cancelled
    ensures OwnsSlot(r2, db2.slots) <==> OwnsSlot(r, db.slots)
    ensures db2.rows[r.inst := Marked(db2.rows[r.inst], r2, Cancelled)] == db2.rows
    ensures var ended := r2.(mem := Cancelled, unsaved := false);
            && SlotsLeft(ended, db2.slots) == OthersSlots(db.slots, r.inst, r.pid)
            && Over(ended, false) == Over(r.(mem := Cancelled, unsaved := false), false)
  {
    hide OthersSlots;
  }

  lemma CancelIsSettled(r: Run, site: Site, t: Token, db: Tables, k: nat, probe: set<Pid>)
    requires r.pc == Check(site) && r.mem in {Cancelled, Cancelling} && MayBecome(db.rows, r.inst, t, Cancelled)
    ensures Steps(r, t, db, k, Go(probe), 2)
            == Some((r.(mem := Cancelled, pc := Failing), db.(rows := db.rows[r.inst := Marked(db.rows[r.inst], r, Cancelled)])))
  {
    var c := Go(probe);
    var r1 := r.(pc := Settle(site));
    PersistIs(db.rows, r1, t, Cancelled, probe);
    hide TryAcquire, Persist, MayBecome;
    assert Steps(r, t, db, k, c, 0) == Some((r, db));
    assert Steps(r, t, db, k, c, 1) == Some((r1, db));
  }

  /** The row of the generation asks for a cancel, or is cancelled or about to be. */
  predicate RowAsks(rows: Rows, inst: Instance, t: Token) {
    && inst in rows && rows[inst].token == t
    && (rows[inst].cancelRequested || rows[inst].status == Cancelling || rows[inst].status == Cancelled)
  }

  /** Looking at its row, a run takes over a cancel that it finds there, wherever it was written,
      and otherwise goes on with what it was about to do. */
  lemma RowIsLookedAt(r: Run, site: Site, t: Token, db: Tables, k: nat, probe: set<Pid>)
    requires r.pc == Check(site) && r.mem !in {Cancelled, Cancelling}
    ensures RowAsks(db.rows, r.inst, t) ==>
              Steps(r, t, db, k, Go(probe), 3)
              == Some((r.(mem := if db.rows[r.inst].status == Cancelling then Cancelling else Cancelled,
                          asked := true, pc := Settle(site)), db))
    ensures !RowAsks(db.rows, r.inst, t) ==>
              Steps(r, t, db, k, Go(probe), 2)
              == Some((match site
                       case AfterFirstTry => r.(pc := Requeue)
                       case AfterWait => r.(pc := TimedOut)
                       case BeforeBuild => r.(mem := Building, pc := PersistBuilding)
                       case AfterBuild => r.(mem := Success, pc := PersistSuccess)
                       case _ => r.(pc := Settle(site)), db))
  {
    var c := Go(probe);
    hide TryAcquire;
    assert Steps(r, t, db, k, c, 0) == Some((r, db));
    assert Steps(r, t, db, k, c, 1) == Some((r.(pc := CheckRow(site)), db));
    assert Steps(r, t, db, k, c, 2) == RunNext(r.(pc := CheckRow(site)), t, db, k, c);
    assert RowAsks(db.rows, r.inst, t) <==> CancelRequested(db.rows, r.inst, t);
  }

  /** A row that may not become building or success keeps the builder from being called, and the
      result from being returned; the run then ends. */
  lemma RefusedRunEnds(r: Run, t: Token, db: Tables, k: nat, probe: set<Pid>)
    requires r.pc in {PersistBuilding, PersistSuccess}
    requires r.inst in db.rows
    requires !MayBecome(db.rows, r.inst, t, if r.pc.PersistBuilding? then Building else Success)
    ensures RunNext(r, t, db, k, Go(probe))
            == Some((r.(pc := Check(if r.pc.PersistBuilding? then BuildRefused else SuccessRefused)), db))
    ensures RunNext(r, t, db, k, DbFails)
            == Some((r.(pc := Check(if r.pc.PersistBuilding? then BuildRefused else SuccessRefused)), db))
  {
    UpsertIs(db.rows, r.inst, RowOf(r, t, if r.pc.PersistBuilding? then Building else Success), false);
    hide TryAcquire, Upsert;
  }

  // ---- cancel, without a task object in the process ---------------------------------------------

  function RowSteps(pc: CancelPc, inst: Instance, db: Tables, c: Choice, n: nat): Option<(CancelPc, Tables)>
    requires c.Go? || c.TimesOut?
  {
    if n == 0 then Some((pc, db))
    else
      match RowSteps(pc, inst, db, c, n - 1)
      case None => None
      case Some((pc', db')) => CancelRow(pc', inst, db', c)
  }

  /** The tables with the row at another status, the cancel asked for. */
  function Asked(db: Tables, inst: Instance, status: Status): Tables
    requires inst in db.rows
  {
    db.(rows := db.rows[inst := db.rows[inst].(status := status, cancelRequested := true)])
  }

  /** What a finished row makes a cancel answer. */
  function AnswerOf(status: Status): Outcome {
    match status
    case Cancelled => OutCancelled
    case CancelFailed => OutCancelFailed
    case _ => OutAlreadyDone
  }

  lemma MarkIs(db: Tables, inst: Instance, t: Token, status: Status, asked: bool)
    requires inst in db.rows && db.rows[inst].token == t
    ensures Update(db.rows, inst, t, Mark(status, asked))
            == if (db.rows[inst].status, status) in EDGES
               then (db.rows[inst := db.rows[inst].(status := status, cancelRequested := db.rows[inst].cancelRequested || asked)], true)
               else (db.rows, false)
  {
    UpdateIs(db.rows, inst, t, Mark(status, asked));
    var (rows', accepted) := Update(db.rows, inst, t, Mark(status, asked));
    hide Update;
    if accepted {
      var row' := db.rows[inst].(status := status, cancelRequested := db.rows[inst].cancelRequested || asked);
      assert rows'[inst].worker == db.rows[inst].worker;
      assert rows' == db.rows[inst := row'];
    }
  }

  /** Without a row there is nothing to cancel, and a finished row is answered as it stands. */
  lemma FinishedRowIsAnswered(inst: Instance, db: Tables, probe: set<Pid>)
    ensures inst !in db.rows ==>
              CancelRow(ReadRow, inst, db, Go(probe)) == Some((Replied(OutNoop, None, true, true), db))
    ensures inst in db.rows && db.rows[inst].status in {Success, Failed, Cancelled, CancelFailed} ==>
              CancelRow(ReadRow, inst, db, Go(probe))
              == Some((Replied(AnswerOf(db.rows[inst].status), Some(db.rows[inst].token), true, true), db))
  {
  }

  lemma QueuedRowIsCancelled(inst: Instance, db: Tables, probe: set<Pid>)
    requires inst in db.rows && db.rows[inst].status == Queued
    ensures RowSteps(ReadRow, inst, db, Go(probe), 2)
            == Some((Replied(OutCancelled, Some(db.rows[inst].token), true, true), Asked(db, inst, Cancelled)))
  {
    var c, t := Go(probe), db.rows[inst].token;
    MarkIs(db, inst, t, Cancelled, true);
    hide Update;
    assert RowSteps(ReadRow, inst, db, c, 0) == Some((ReadRow, db));
    assert RowSteps(ReadRow, inst, db, c, 1) == Some((CancelQueuedRow(t), db));
  }

  /** A build of an owner that is alive is asked to stop, and its end awaited. */
  lemma LiveOwnerIsAsked(inst: Instance, db: Tables, probe: set<Pid>)
    requires inst in db.rows && db.rows[inst].status in {Building, Cancelling} && db.rows[inst].owner in probe
    ensures RowSteps(ReadRow, inst, db, Go(probe), 3) == Some((AwaitRow, Asked(db, inst, Cancelling)))
  {
    ActiveRowIsAsked(inst, db, probe);
  }

  lemma ActiveRowIsAsked(inst: Instance, db: Tables, probe: set<Pid>)
    requires inst in db.rows && db.rows[inst].status in {Building, Cancelling}
    ensures RowSteps(ReadRow, inst, db, Go(probe), 2)
            == Some((ProbeOwner(db.rows[inst].token, db.rows[inst].owner), Asked(db, inst, Cancelling)))
  {
    var c, row := Go(probe), db.rows[inst];
    MarkIs(db, inst, row.token, Cancelling, true);
    hide Update;
    assert RowSteps(ReadRow, inst, db, c, 0) == Some((ReadRow, db));
    assert RowSteps(ReadRow, inst, db, c, 1) == Some((CancelActiveRow(row.token, row.owner), db));
  }

  /** A build of an owner that is not alive is cancelled at once. */
  lemma OrphanIsCancelled(inst: Instance, db: Tables, probe: set<Pid>)
    requires inst in db.rows && db.rows[inst].status in {Building, Cancelling} && db.rows[inst].owner !in probe
    ensures RowSteps(ReadRow, inst, db, Go(probe), 4)
            == Some((Replied(OutCancelled, Some(db.rows[inst].token), true, true), Asked(db, inst, Cancelled)))
  {
    var c, row := Go(probe), db.rows[inst];
    var asked := Asked(db, inst, Cancelling);
    ActiveRowIsAsked(inst, db, probe);
    MarkIs(asked, inst, row.token, Cancelled, false);
    hide Update;
    assert RowSteps(ReadRow, inst, db, c, 3) == Some((CancelOrphanRow(row.token), asked));
    assert asked.rows[inst := asked.rows[inst].(status := Cancelled)] == Asked(db, inst, Cancelled).rows;
  }

  /** While it waits, a cancel answers as soon as the row is finished or gone. */
  lemma EndIsAwaited(inst: Instance, db: Tables, probe: set<Pid>)
    ensures CancelRow(AwaitRow, inst, db, Go(probe))
            == Some((if inst !in db.rows then Replied(OutCancelled, None, true, true)
                     else if db.rows[inst].status in {Queued, Building, Cancelling} then AwaitRow
                     else Replied(AnswerOf(db.rows[inst].status), Some(db.rows[inst].token), true, true), db))
  {
  }

  /** When the time is up the cancel has failed, and a row that still says cancelling says so. */
  lemma WaitingEnds(inst: Instance, db: Tables)
    ensures inst in db.rows ==>
              RowSteps(AwaitRow, inst, db, TimesOut, 3)
              == Some((Replied(OutCancelFailed, Some(db.rows[inst].token), true, false),
                       if db.rows[inst].status == Cancelling
                       then db.(rows := db.rows[inst := db.rows[inst].(status := CancelFailed)])
                       else db))
    ensures inst !in db.rows ==>
              RowSteps(AwaitRow, inst, db, TimesOut, 2) == Some((Replied(OutCancelFailed, None, true, true), db))
  {
    var c := TimesOut;
    assert RowSteps(AwaitRow, inst, db, c, 0) == Some((AwaitRow, db));
    assert RowSteps(AwaitRow, inst, db, c, 1) == Some((RereadRow, db));
    if inst in db.rows {
      var row := db.rows[inst];
      MarkIs(db, inst, row.token, CancelFailed, false);
      assert row.status == CancelFailed ==> db.rows[inst := row.(status := CancelFailed)] == db.rows;
      hide Update;
      assert RowSteps(AwaitRow, inst, db, c, 2) == Some((FailRow(row.token), db));
      assert RowSteps(AwaitRow, inst, db, c, 3) == CancelRow(FailRow(row.token), inst, db, c);
    } else {
      assert RowSteps(AwaitRow, inst, db, c, 2) == CancelRow(RereadRow, inst, db, c);
    }
  }

  // ---- cancel, with a task object in the process --------------------------------------------------

  /** A queued task is cancelled in memory first and then in its row. */
  lemma QueuedTaskIsCancelled(task: Token, run: Run, db: Tables, probe: set<Pid>)
    requires run.mem == Queued && MayBecome(db.rows, run.inst, task, Cancelled)
    ensures var c, run' := Go(probe), run.(mem := Cancelled, asked := true);
            && CancelTask(Enter, task, run, db, c) == Some((PersistQueuedCancel(task), run', db))
            && CancelTask(PersistQueuedCancel(task), task, run', db, c)
               == Some((Replied(OutCancelled, Some(task), false, false), run',
                        db.(rows := db.rows[run.inst := Marked(db.rows[run.inst], run', Cancelled)])))
  {
    PersistIs(db.rows, run.(mem := Cancelled, asked := true), task, Cancelled, probe);
    hide Persist;
  }

  /** A task that is building is asked to stop: in memory, in its row, and by its worker. */
  lemma BuildingTaskIsAsked(task: Token, run: Run, db: Tables, probe: set<Pid>)
    requires run.mem == Building && MayBecome(db.rows, run.inst, task, Cancelling)
    ensures var c, run' := Go(probe), run.(mem := Cancelling, asked := true);
            && CancelTask(Enter, task, run, db, c) == Some((PersistCancelling(task), run', db))
            && CancelTask(PersistCancelling(task), task, run', db, c)
               == Some((AwaitRun(task), run', db.(rows := db.rows[run.inst := Marked(db.rows[run.inst], run', Cancelling)])))
  {
    PersistIs(db.rows, run.(mem := Cancelling, asked := true), task, Cancelling, probe);
    hide Persist;
  }

  /** A finished task is answered as it stands, and one already asked to stop is waited for. */
  lemma OtherTasksAreAnswered(task: Token, run: Run, db: Tables, probe: set<Pid>)
    ensures run.mem in {Success, Failed, Cancelled, CancelFailed} ==>
              CancelTask(Enter, task, run, db, Go(probe))
              == Some((Replied(AnswerOf(run.mem), Some(task), false, false), run, db))
    ensures run.mem == Cancelling ==> CancelTask(Enter, task, run, db, Go(probe)) == Some((AwaitRun(task), run, db))
  {
  }

  /** After the wait the task's end is the answer; a task that has not ended by then makes the
      cancel fail, in memory and in a row that still says cancelling. */
  lemma WaitForTheTaskEnds(task: Token, run: Run, db: Tables, probe: set<Pid>)
    ensures CancelTask(AwaitRun(task), task, run, db, Go(probe))
            == Some((if run.mem in {Cancelled, Success, Failed} then Replied(AnswerOf(run.mem), Some(task), false, false)
                     else StillRunning(task), run, db))
    ensures CancelTask(StillRunning(task), task, run, db, Go(probe))
            == Some((PersistCancelFailed(task), if run.mem == Cancelling then run.(mem := CancelFailed) else run, db))
    ensures run.inst in db.rows && db.rows[run.inst].token == task ==>
              CancelRow(PersistCancelFailed(task), run.inst, db, Go(probe))
              == Some((Replied(OutCancelFailed, Some(task), false, false),
                       if db.rows[run.inst].status == Cancelling
                       then db.(rows := db.rows[run.inst := db.rows[run.inst].(status := CancelFailed)])
                       else db))
  {
    if run.inst in db.rows && db.rows[run.inst].token == task {
      var row := db.rows[run.inst];
      MarkIs(db, run.inst, task, CancelFailed, false);
      if row.status == CancelFailed {
        assert db.rows[run.inst := row.(status := CancelFailed)] == db.rows;
      }
    }
    hide Update;
  }

  /** Which of the two it is: the process looks for its own task first. */
  lemma OwnTaskComesFirst(k: nat, s: State, id: nat, probe: set<Pid>)
    requires id in s.cancels && s.cancels[id].pc == Enter && Enabled(s, CancelStep(id, Go(probe)))
    requires forall key :: key in s.tasks ==> s.tasks[key] in s.runs
    ensures var x, next := s.cancels[id], Next(k, s, CancelStep(id, Go(probe)));
            && next.Some?
            && if (x.pid, x.inst) in s.tasks
               then var t := s.tasks[(x.pid, x.inst)];
                    var task := CancelTask(Enter, t, s.runs[t], s.db, Go(probe));
                    task.Some? && next.value.cancels[id].pc == task.value.0 && next.value.runs[t] == task.value.1
               else next.value.cancels[id].pc == ReadRow && next.value.runs == s.runs
  {
  }

  // ---- Exceptions ------------------------------------------------------------------------------------

  /** An interrupt in the `finally` clause, or before the `try`, ends the run at once; anywhere else
      the `finally` clause still runs.  The slot is left behind when it was granted and not assigned,
      or was about to be given back. */
  lemma InterruptIs(r: Run, t: Token, db: Tables, k: nat)
    ensures RunNext(r, t, db, k, Interrupt)
            == match r.pc
               case Returned => None
               case Raised => None
               case PersistQueued => Some((r.(pc := Raised, unsaved := true), db))
               case ReleaseSlot(_) => Some((r.(pc := Raised, slot := None, leaked := r.leaked || r.slot != None), db))
               case ReleaseRest(_) => Some((r.(pc := Raised), db))
               case Granted(_) => Some((r.(pc := ReleaseSlot(false), unsaved := true, leaked := true), db))
               case _ => Some((r.(pc := ReleaseSlot(false), unsaved := true), db))
  {
  }

  /** An ordinary exception can come from the gate, from reading the row, from recording an event
      and from the builder, and is handled. */
  lemma RaiseIs(r: Run, t: Token, db: Tables, k: nat)
    ensures RunNext(r, t, db, k, Raise)
            == match r.pc
               case FirstTry => Some((r.(pc := Failing), db))
               case Waiting => Some((r.(pc := Failing), db))
               case Ready => Some((r.(pc := Failing), db))
               case Executing => Some((r.(pc := Failing), db))
               case CheckRow(_) => Some((r.(pc := Failing), db))
               case CheckReread(_) => Some((r.(pc := Failing), db))
               case Settle(site) => if site == BeforeBuild then Some((r.(pc := Failing), db)) else None
               case _ => None
  {
  }

  /** Only a builder reports a cancel or writes its worker, and only a waiting run times out or sees
      the cancel in its row. */
  lemma OnlyThere(r: Run, t: Token, db: Tables, k: nat, w: Worker)
    ensures RunNext(r, t, db, k, BuilderCancels).Some? <==> r.pc == Executing
    ensures RunNext(r, t, db, k, RecordWorker(w)).Some? <==> r.pc == Executing
    ensures RunNext(r, t, db, k, ClearWorker).Some? <==> r.pc == Executing
    ensures RunNext(r, t, db, k, TimesOut).Some? <==> r.pc == Waiting
    ensures RunNext(r, t, db, k, SeesCancel).Some? <==> r.pc == Waiting && RowAsks(db.rows, r.inst, t)
    ensures r.pc == Waiting && RowAsks(db.rows, r.inst, t) ==>
              RunNext(r, t, db, k, SeesCancel) == Some((r.(pc := Check(AfterWait)), db))
  {
    hide Update;
  }

  /** A database call that fails writes nothing; a row write that does is logged, and the run goes
      on, unless the row had to become building or success; a slot that cannot be given back is
      left behind. */
  lemma FailingDatabaseIs(r: Run, t: Token, db: Tables, k: nat)
    requires r.pc !in {Requeue, TimedOut, Ready, Executing, BuilderCancelled, Failing}
    requires !r.pc.Check? && !r.pc.CheckRow? && !r.pc.CheckReread? && !r.pc.Granted?
    ensures RunNext(r, t, db, k, DbFails)
            == match r.pc
               case PersistQueued => Some((r.(pc := FirstTry), db))
               case FirstTry => Some((r.(pc := Check(AfterFirstTry)), db))
               case PersistRequeued => Some((r.(pc := Waiting), db))
               case Waiting => Some((r, db))
               case PersistTimedOut => Some((r.(pc := Failing), db))
               case Settle(_) => Some((r.(mem := Cancelled, pc := Failing), db))
               case PersistBuilding => Some((r.(pc := Check(BuildRefused)), db))
               case PersistSuccess => Some((r.(pc := Check(SuccessRefused)), db))
               case PersistBuilderCancelled => Some((r.(pc := ReleaseSlot(false), unsaved := true), db))
               case PersistFailing(_) => Some((r.(pc := ReleaseSlot(false), unsaved := true), db))
               case ReleaseSlot(ok) =>
                 Some((if r.slot == None then r.(pc := ReleaseRest(ok)) else r.(slot := None, leaked := true, pc := Raised), db))
               case ReleaseRest(ok) =>
                 Some((r.(pc := if ok && r.mem != Cancelled && r.mem != CancelFailed then Returned else Raised), db))
               case _ => None
  {
    assert db.(rows := db.rows) == db;
    hide TryAcquire;
  }

  // ---- One step of the whole system --------------------------------------------------------------------

  /** The steps of a run that need its process's guard, which no other thread may then hold. */
  predicate NeedsGuard(r: Run, c: Choice) {
    c != Interrupt && (r.pc.Check? || r.pc == Requeue || r.pc == BuilderCancelled || r.pc == Failing)
  }

  /** The places at which a run keeps the guard from the step before. */
  predicate KeepsGuard(r: Run) {
    r.pc.CheckRow? || r.pc.CheckReread? || r.pc.Settle? || r.pc.PersistFailing?
  }

  /** A step of a run takes place exactly when its process lives and the guard is free if it needs
      it; it changes the run, the tables and the guard, notes the rows, and nothing else. */
  lemma RunStepIs(k: nat, s: State, t: Token, c: Choice)
    requires t in s.runs
    ensures var r, next := s.runs[t], Next(k, s, RunStep(t, c));
            var went := RunNext(r, t, s.db, k, c);
            && (next.Some? <==>
                 && went.Some? && r.pid in s.alive && (c.Go? ==> s.alive <= c.probe)
                 && (NeedsGuard(r, c) ==> r.pid !in s.guards))
            && (next.Some? ==>
                 next.value == s.(runs := s.runs[t := went.value.0], db := went.value.1,
                                  seen := s.seen + (set i | i in went.value.1.rows ::
                                                      Seen(i, went.value.1.rows[i].token, went.value.1.rows[i].status)),
                                  guards := if KeepsGuard(went.value.0) then s.guards[r.pid := HeldByRun(t)]
                                            else if KeepsGuard(r) then s.guards - {r.pid} else s.guards))
  {
    hide RunNext;
  }

  /** A run starts in a live process whose guard is free, with a token never used, when no other run
      of the instance there is unfinished; from then on it is the process's task for the instance. */
  lemma StartIs(k: nat, s: State, t: Token, pid: Pid, inst: Instance)
    ensures var next := Next(k, s, Start(t, pid, inst));
            && (next.Some? <==>
                 && pid in s.alive && pid !in s.guards && t !in s.runs
                 && (forall x :: x in s.seen ==> x.token != t)
                 && forall u :: u in s.runs && s.runs[u].pid == pid && s.runs[u].inst == inst ==>
                      s.runs[u].pc == Returned || s.runs[u].pc == Raised)
            && (next.Some? ==>
                 next.value == s.(runs := s.runs[t := Fresh(pid, inst)], tasks := s.tasks[(pid, inst) := t]))
  {
  }

  /** A cancel may be called at any time in a live process, and a process may die at any time. */
  lemma OthersAct(k: nat, s: State, id: nat, pid: Pid, inst: Instance)
    ensures Next(k, s, StartCancel(id, pid, inst))
            == if id !in s.cancels && pid in s.alive
               then Some(s.(cancels := s.cancels[id := Cancel(pid, inst, Enter)])) else None
    ensures Next(k, s, Die(pid)) == Some(s.(alive := s.alive - {pid}))
  {
  }

  /** A step of a cancel needs the guard when it looks at a task object, and keeps it for the row
      write that goes with it; an exception ends the call. */
  lemma CancelGuards(k: nat, s: State, id: nat, c: Choice)
    requires id in s.cancels && Next(k, s, CancelStep(id, c)).Some?
    ensures var x, next := s.cancels[id], Next(k, s, CancelStep(id, c)).value;
            && id in next.cancels
            && var pc := next.cancels[id].pc;
            && x.pid in s.alive && (c.Go? ==> s.alive <= c.probe)
            && (c != Raise && (x.pc == Enter || x.pc.AwaitRun? || x.pc.StillRunning?) ==> x.pid !in s.guards)
            && !x.pc.Replied? && !x.pc.Aborted?
            && (c == Raise <==> pc == Aborted)
            && next.guards == (if pc.PersistQueuedCancel? || pc.PersistCancelling? then s.guards[x.pid := HeldByCancel(id)]
                               else if x.pc.PersistQueuedCancel? || x.pc.PersistCancelling? then s.guards - {x.pid}
                               else s.guards)
  {
    hide Update, Upsert, Snapshot;
  }

  /** It changes at most the task object it works on, the rows and the guard, and notes the rows. */
  lemma CancelStepIs(k: nat, s: State, id: nat, c: Choice)
    requires id in s.cancels && Next(k, s, CancelStep(id, c)).Some?
    ensures var x, next := s.cancels[id], Next(k, s, CancelStep(id, c)).value;
            && next.alive == s.alive && next.tasks == s.tasks && next.cancels.Keys == s.cancels.Keys
            && (forall other :: other in s.cancels && other != id ==> next.cancels[other] == s.cancels[other])
            && next.runs.Keys == s.runs.Keys
            && (forall u :: u in s.runs && TaskOf(s, x) != Some(u) ==> next.runs[u] == s.runs[u])
            && next.db.slots == s.db.slots
            && next.seen == s.seen + (set i | i in next.db.rows :: Seen(i, next.db.rows[i].token, next.db.rows[i].status))
  {
    hide Enabled, CancelTask, CancelRow, SetGuard;
    var x := s.cancels[id];
    var task := TaskOf(s, x);
    if c != Raise && task.Some? {
      var went := CancelTask(x.pc, task.value, s.runs[task.value], s.db, c);
      TaskKeepsSlots(x.pc, task.value, s.runs[task.value], s.db, c);
      assert Next(k, s, CancelStep(id, c)).value
             == WithCancel(s, id, x, went.value.0, went.value.2, s.runs[task.value := went.value.1]);
    } else if c != Raise && x.pc != Enter {
      RowKeepsSlots(x.pc, x.inst, s.db, c);
    }
  }

  lemma TaskKeepsSlots(pc: CancelPc, task: Token, run: Run, db: Tables, c: Choice)
    requires c.Go? || c.DbFails?
    ensures CancelTask(pc, task, run, db, c).Some? ==> CancelTask(pc, task, run, db, c).value.2.slots == db.slots
  {
    hide Persist;
  }

  lemma RowKeepsSlots(pc: CancelPc, inst: Instance, db: Tables, c: Choice)
    requires c.Go? || c.TimesOut?
    ensures CancelRow(pc, inst, db, c).Some? ==> CancelRow(pc, inst, db, c).value.1.slots == db.slots
  {
    hide Update;
  }

  /** The task object that a call of cancel is at: the one it holds, or the one its process has now. */
  function AtTask(s: State, x: Cancel): Option<Token> {
    if x.pc.PersistQueuedCancel? || x.pc.PersistCancelling? || x.pc.StillRunning? then Some(x.pc.t)
    else if (x.pc == Enter || x.pc.AwaitRun?) && (x.pid, x.inst) in s.tasks then Some(s.tasks[(x.pid, x.inst)])
    else None
  }

  /** A call that is not over goes on when its process lives and the guard is free where it is
      needed: with the task object it is at, or else with the row; and it may raise anywhere. */
  lemma CancelGoesOn(k: nat, s: State, id: nat, c: Choice)
    requires id in s.cancels && s.cancels[id].pid in s.alive && !s.cancels[id].pc.Replied? && !s.cancels[id].pc.Aborted?
    requires c.Go? ==> s.alive <= c.probe
    ensures c == Raise ==> Next(k, s, CancelStep(id, c)).Some?
    ensures var x, task, next := s.cancels[id], AtTask(s, s.cancels[id]), Next(k, s, CancelStep(id, c));
            (x.pc == Enter || x.pc.AwaitRun? || x.pc.StillRunning? ==> x.pid !in s.guards) ==>
              && (task.Some? && task.value in s.runs && (c.Go? || c == DbFails) ==>
                    var went := CancelTask(x.pc, task.value, s.runs[task.value], s.db, c);
                    && (next.Some? <==> went.Some?)
                    && (next.Some? ==>
                          && next.value.cancels[id] == x.(pc := went.value.0)
                          && next.value.runs == s.runs[task.value := went.value.1] && next.value.db == went.value.2))
              && (task.None? && x.pc != Enter && (c.Go? || c == TimesOut) ==>
                    var went := CancelRow(x.pc, x.inst, s.db, c);
                    && (next.Some? <==> went.Some?)
                    && (next.Some? ==>
                          && next.value.cancels[id] == x.(pc := went.value.0)
                          && next.value.runs == s.runs && next.value.db == went.value.1))
              && (task.None? && x.pc == Enter && c != Raise ==>
                    next.Some? && next.value.cancels[id] == x.(pc := ReadRow) && next.value.db == s.db)
  {
    hide CancelTask, CancelRow, Snapshot, SetGuard;
  }
}
