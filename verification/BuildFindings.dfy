/**
Behaviours of the build queue that show where a stronger promise would be false, given
event by event.  Two processes, one instance, one slot, and tables that start empty.
*/
module BuildFindings {
  import opened Wrappers
  import opened BuildTasks
  import opened BuildProtocol

  const BOTH: set<Pid> := {1, 2}

  const EMPTY := State(BOTH, Tables(map[], map[]), map[], map[], map[], map[], {})

  const ALL_WELL := Go(BOTH)

  function RunAt(mem: Status, slot: Option<nat>, pc: RunPc, began: bool): Run {
    Run(1, 0, mem, false, slot, pc, began, false, false)
  }

  function Row(s: Status): TaskRow {
    TaskRow(1, s, 1, NO_WORKER, false)
  }

  function Db(slots: Slots, row: TaskRow): Tables {
    Tables(slots, map[0 := row])
  }

  const ONE_SLOT: Slots := map[0 := SlotRow(0, 1)]

  /** The last state has run 1 of process 1 at `r`, the tables `db`, the calls `cancels`,
      and process 1's guard held just when run 1 holds it. */
  ghost predicate At(b: seq<State>, r: Run, db: Tables, cancels: map<nat, Cancel>) {
    && Behaviour(1, b)
    && var s := b[|b| - 1];
       && s.alive == BOTH && s.runs == map[1 := r] && s.db == db && s.cancels == cancels
       && (1 in s.guards <==> HoldsGuard(r.pc))
  }

  lemma Extend(b: seq<State>, e: Event) returns (b': seq<State>)
    requires Behaviour(1, b) && Next(1, b[|b| - 1], e).Some?
    ensures Behaviour(1, b') && b' == b + [Next(1, b[|b| - 1], e).value]
  {
    hide Next, Init;
    var s' := Next(1, b[|b| - 1], e).value;
    assert Step(1, b[|b| - 1], s');
    b' := b + [s'];
  }

  /** Run 1 takes a step. */
  lemma Act(b: seq<State>, r: Run, db: Tables, cancels: map<nat, Cancel>, c: Choice, r': Run, db': Tables)
    returns (b': seq<State>)
    requires At(b, r, db, cancels) && r.pid == 1 && (c.Go? ==> c.probe == BOTH)
    requires RunNext(r, 1, db, 1, c) == Some((r', db'))
    requires HoldsGuard(r'.pc) ==> TakesGuard(r.pc) || HoldsGuard(r.pc)
    requires TakesGuard(r.pc) ==> !HoldsGuard(r.pc)
    ensures At(b', r', db', cancels) && b <= b'
  {
    hide RunNext, Behaviour;
    b' := Extend(b, RunStep(1, c));
  }

  /** Call 0, of process 2, takes a step on the row. */
  lemma Call(b: seq<State>, r: Run, db: Tables, pc: CancelPc, pc': CancelPc, db': Tables) returns (b': seq<State>)
    requires At(b, r, db, map[0 := Cancel(2, 0, pc)])
    requires CancelRow(pc, 0, db, ALL_WELL) == Some((pc', db'))
    ensures At(b', r, db', map[0 := Cancel(2, 0, pc')]) && b <= b'
  {
    hide Behaviour, Update;
    b' := Extend(b, CancelStep(0, ALL_WELL));
    assert b'[|b'| - 1].cancels == map[0 := Cancel(2, 0, pc')];
  }

  /** Run 1 starts and makes its first write; call 0 of process 2 finds no task object. */
  lemma Opening() returns (b: seq<State>)
    ensures At(b, RunAt(Queued, None, FirstTry, false), Db(map[], Row(Queued)), map[0 := Cancel(2, 0, ReadRow)])
  {
    b := Extend([EMPTY], Start(1, 1, 0));
    b := Extend(b, StartCancel(0, 2, 0));
    hide Behaviour;
    b := Extend(b, CancelStep(0, ALL_WELL));
    b := Extend(b, RunStep(1, ALL_WELL));
    assert b[|b| - 1].cancels == map[0 := Cancel(2, 0, ReadRow)];
  }

  lemma FirstSlot()
    ensures TryAcquire(Db(map[], Row(Queued)), BOTH, 1, 0, 1) == (Db(ONE_SLOT, Row(Queued)), Some(0))
  {
    assert LiveSlots(map[], BOTH) == map[];
    assert SettledRows(map[0 := Row(Queued)], BOTH) == map[0 := Row(Queued)];
  }

  /** From the first write to a called builder. */
  lemma ToBuilding(b0: seq<State>, cancels: map<nat, Cancel>) returns (b: seq<State>)
    requires At(b0, RunAt(Queued, None, FirstTry, false), Db(map[], Row(Queued)), cancels)
    ensures At(b, RunAt(Building, Some(0), Executing, true), Db(ONE_SLOT, Row(Building)), cancels) && b0 <= b
  {
    hide At;
    FirstSlot();
    var db := Db(ONE_SLOT, Row(Queued));
    var db' := Db(ONE_SLOT, Row(Building));
    b := Act(b0, RunAt(Queued, None, FirstTry, false), Db(map[], Row(Queued)), cancels, ALL_WELL,
             RunAt(Queued, None, Granted(0), false), db);
    b := Act(b, RunAt(Queued, None, Granted(0), false), db, cancels, ALL_WELL,
             RunAt(Queued, Some(0), Check(BeforeBuild), false), db);
    b := Act(b, RunAt(Queued, Some(0), Check(BeforeBuild), false), db, cancels, ALL_WELL,
             RunAt(Queued, Some(0), CheckRow(BeforeBuild), false), db);
    b := Act(b, RunAt(Queued, Some(0), CheckRow(BeforeBuild), false), db, cancels, ALL_WELL,
             RunAt(Building, Some(0), PersistBuilding, false), db);
    assert db.rows[0 := Row(Building)] == db'.rows;
    b := Act(b, RunAt(Building, Some(0), PersistBuilding, false), db, cancels, ALL_WELL,
             RunAt(Building, Some(0), Ready, false), db');
    b := Act(b, RunAt(Building, Some(0), Ready, false), db', cancels, ALL_WELL,
             RunAt(Building, Some(0), Executing, true), db');
  }

  /** From a called builder to a returned result's last step. */
  lemma ToSuccess(b0: seq<State>, cancels: map<nat, Cancel>) returns (b: seq<State>)
    requires At(b0, RunAt(Building, Some(0), Executing, true), Db(ONE_SLOT, Row(Building)), cancels)
    ensures At(b, RunAt(Success, Some(0), ReleaseSlot(true), true), Db(ONE_SLOT, Row(Success)), cancels) && b0 <= b
  {
    hide At;
    var db := Db(ONE_SLOT, Row(Building));
    var db' := Db(ONE_SLOT, Row(Success));
    b := Act(b0, RunAt(Building, Some(0), Executing, true), db, cancels, ALL_WELL,
             RunAt(Building, Some(0), Check(AfterBuild), true), db);
    b := Act(b, RunAt(Building, Some(0), Check(AfterBuild), true), db, cancels, ALL_WELL,
             RunAt(Building, Some(0), CheckRow(AfterBuild), true), db);
    b := Act(b, RunAt(Building, Some(0), CheckRow(AfterBuild), true), db, cancels, ALL_WELL,
             RunAt(Success, Some(0), PersistSuccess, true), db);
    assert db.rows[0 := Row(Success)] == db'.rows;
    b := Act(b, RunAt(Success, Some(0), PersistSuccess, true), db, cancels, ALL_WELL,
             RunAt(Success, Some(0), ReleaseSlot(true), true), db');
  }

  /** The slot goes back, and the run ends. */
  lemma ToEnd(b0: seq<State>, mem: Status, ok: bool, row: TaskRow, cancels: map<nat, Cancel>) returns (b: seq<State>)
    requires mem == Success || mem == Failed
    requires At(b0, RunAt(mem, Some(0), ReleaseSlot(ok), true), Db(ONE_SLOT, row), cancels)
    ensures At(b, RunAt(mem, None, if ok then Returned else Raised, true), Db(map[], row), cancels) && b0 <= b
  {
    hide At;
    assert ONE_SLOT - {0} == map[];
    b := Act(b0, RunAt(mem, Some(0), ReleaseSlot(ok), true), Db(ONE_SLOT, row), cancels, ALL_WELL,
             RunAt(mem, None, ReleaseRest(ok), true), Db(map[], row));
    b := Act(b, RunAt(mem, None, ReleaseRest(ok), true), Db(map[], row), cancels, ALL_WELL,
             RunAt(mem, None, if ok then Returned else Raised, true), Db(map[], row));
  }

  /** Across processes, "cancelled" can be answered although the run returns its result: the
      row was queued when it was read, had moved on to success at the write, and the refusal is
      not looked at.  `AnswerAcrossProcessesIff` says exactly when it cannot happen. */
  lemma CancelledAcrossProcessesCanReturn() returns (b: seq<State>)
    ensures Behaviour(1, b)
    ensures var s := b[|b| - 1];
            && 1 in s.runs && s.runs[1].pc == Returned
            && 0 in s.cancels && s.cancels[0].pc == Replied(OutCancelled, Some(1), true, false)
  {
    b := Opening();
    hide Behaviour;
    var queued := RunAt(Queued, None, FirstTry, false);
    b := Call(b, queued, Db(map[], Row(Queued)), ReadRow, CancelQueuedRow(1), Db(map[], Row(Queued)));
    var standing := map[0 := Cancel(2, 0, CancelQueuedRow(1))];
    b := ToBuilding(b, standing);
    b := ToSuccess(b, standing);
    var won := RunAt(Success, Some(0), ReleaseSlot(true), true);
    b := Call(b, won, Db(ONE_SLOT, Row(Success)), CancelQueuedRow(1), Replied(OutCancelled, Some(1), true, false),
              Db(ONE_SLOT, Row(Success)));
    b := ToEnd(b, Success, true, Row(Success), map[0 := Cancel(2, 0, Replied(OutCancelled, Some(1), true, false))]);
  }

  /** A run can be over with its row left at cancelling: the cancel came from another
      process, the builder then failed, and cancelling does not lead to failed. */
  lemma RowCanStayCancelling() returns (b: seq<State>)
    ensures Behaviour(1, b)
    ensures var s := b[|b| - 1];
            && 1 in s.runs && s.runs[1].pc == Raised && s.runs[1].mem == Failed
            && 0 in s.db.rows && s.db.rows[0].token == 1 && s.db.rows[0].status == Cancelling
  {
    b := Opening();
    hide Behaviour;
    var standing := map[0 := Cancel(2, 0, ReadRow)];
    b := ToBuilding(b, standing);
    var running := RunAt(Building, Some(0), Executing, true);
    var asked := Row(Cancelling).(cancelRequested := true);
    b := Call(b, running, Db(ONE_SLOT, Row(Building)), ReadRow, CancelActiveRow(1, 1), Db(ONE_SLOT, Row(Building)));
    assert map[0 := Row(Building)][0 := asked] == map[0 := asked];
    b := Call(b, running, Db(ONE_SLOT, Row(Building)), CancelActiveRow(1, 1), ProbeOwner(1, 1), Db(ONE_SLOT, asked));
    var waiting := map[0 := Cancel(2, 0, ProbeOwner(1, 1))];
    b := FailedBuild(b, asked, waiting);
    b := ToEnd(b, Failed, false, asked, waiting);
  }

  lemma FailedBuild(b0: seq<State>, row: TaskRow, cancels: map<nat, Cancel>) returns (b: seq<State>)
    requires row.token == 1 && row.status == Cancelling
    requires At(b0, RunAt(Building, Some(0), Executing, true), Db(ONE_SLOT, row), cancels)
    ensures At(b, RunAt(Failed, Some(0), ReleaseSlot(false), true), Db(ONE_SLOT, row), cancels) && b0 <= b
  {
    hide At;
    b := Act(b0, RunAt(Building, Some(0), Executing, true), Db(ONE_SLOT, row), cancels, Raise,
             RunAt(Building, Some(0), Failing, true), Db(ONE_SLOT, row));
    b := Act(b, RunAt(Building, Some(0), Failing, true), Db(ONE_SLOT, row), cancels, ALL_WELL,
             RunAt(Failed, Some(0), PersistFailing(Failed), true), Db(ONE_SLOT, row));
    b := Act(b, RunAt(Failed, Some(0), PersistFailing(Failed), true), Db(ONE_SLOT, row), cancels, ALL_WELL,
             RunAt(Failed, Some(0), ReleaseSlot(false), true), Db(ONE_SLOT, row));
  }

  /** A run that is interrupted after its slot was granted, and before `run` has the number,
      leaves the slot row behind, with its process alive and nothing running. */
  lemma GrantedSlotCanBeLeft() returns (b: seq<State>)
    ensures Behaviour(1, b)
    ensures var s := b[|b| - 1];
            && 1 in s.alive && s.runs == map[1 := LEFT.(pc := Raised)] && s.db.slots == ONE_SLOT
  {
    b := Opening();
    FirstSlot();
    hide Behaviour, At, TryAcquire;
    var standing := map[0 := Cancel(2, 0, ReadRow)];
    var db := Db(ONE_SLOT, Row(Queued));
    b := Act(b, RunAt(Queued, None, FirstTry, false), Db(map[], Row(Queued)), standing, ALL_WELL,
             RunAt(Queued, None, Granted(0), false), db);
    b := Act(b, RunAt(Queued, None, Granted(0), false), db, standing, Interrupt, LEFT, db);
    b := Act(b, LEFT, db, standing, ALL_WELL, LEFT.(pc := ReleaseRest(false)), db);
    b := Act(b, LEFT.(pc := ReleaseRest(false)), db, standing, ALL_WELL, LEFT.(pc := Raised), db);
    LastOf(b, LEFT.(pc := Raised), db, standing);
  }

  lemma LastOf(b: seq<State>, r: Run, db: Tables, cancels: map<nat, Cancel>)
    requires At(b, r, db, cancels)
    ensures Behaviour(1, b) && var s := b[|b| - 1]; s.alive == BOTH && s.runs == map[1 := r] && s.db == db
  {
  }

  const LEFT := Run(1, 0, Queued, false, None, ReleaseSlot(false), false, true, true)

  /** A lock conflict at the start of an attempt at a slot is raised, and the task is marked
      failed, in memory and in its row, though all slots are free. */
  lemma LockConflictFailsTheTask() returns (b: seq<State>)
    ensures Behaviour(1, b)
    ensures var s := b[|b| - 1];
            && 1 in s.runs && s.runs[1].mem == Failed && s.runs[1].pc == ReleaseSlot(false) && !s.runs[1].began
            && s.db == Db(map[], Row(Failed))
  {
    b := Opening();
    hide Behaviour;
    var standing := map[0 := Cancel(2, 0, ReadRow)];
    var db := Db(map[], Row(Queued));
    b := Act(b, RunAt(Queued, None, FirstTry, false), db, standing, Raise, RunAt(Queued, None, Failing, false), db);
    b := Act(b, RunAt(Queued, None, Failing, false), db, standing, ALL_WELL,
             RunAt(Failed, None, PersistFailing(Failed), false), db);
    assert db.rows[0 := Row(Failed)] == Db(map[], Row(Failed)).rows;
    b := Act(b, RunAt(Failed, None, PersistFailing(Failed), false), db, standing, ALL_WELL,
             RunAt(Failed, None, ReleaseSlot(false), false), Db(map[], Row(Failed)));
  }

  /** Run 1 is cancelled, in its own process, before its first write. */
  lemma CancelledBeforeFirstWrite() returns (b: seq<State>)
    ensures Behaviour(1, b)
    ensures var s := b[|b| - 1];
            && s.alive == BOTH && s.guards == map[] && s.db == Db(map[], Row(Cancelled).(cancelRequested := true))
            && s.runs == map[1 := CANCELLED_EARLY]
            && forall x :: x in s.seen ==> x.token == 1
  {
    b := Extend([EMPTY], Start(1, 1, 0));
    b := Extend(b, StartCancel(0, 1, 0));
    hide Behaviour;
    assert b[|b| - 1].cancels == map[0 := Cancel(1, 0, Enter)];
    b := Extend(b, CancelStep(0, ALL_WELL));
    b := Extend(b, CancelStep(0, ALL_WELL));
    assert b[|b| - 1].guards == map[];
  }

  const CANCELLED_EARLY := Run(1, 0, Cancelled, true, None, PersistQueued, false, false, false)

  /** Another process's generation takes the row over. */
  lemma Overtaken(b0: seq<State>) returns (b: seq<State>)
    requires Behaviour(1, b0)
    requires var s := b0[|b0| - 1];
             && s.alive == BOTH && s.guards == map[] && 0 in s.db.rows && s.db.rows[0].token == 1
             && s.runs == map[1 := CANCELLED_EARLY]
             && forall x :: x in s.seen ==> x.token == 1
    ensures Behaviour(1, b) && b0 <= b
    ensures var s := b[|b| - 1];
            && s.alive == BOTH && 0 in s.db.rows && s.db.rows[0].token == 2
            && 1 in s.runs && s.runs[1] == CANCELLED_EARLY && !Locked(s)
  {
    hide Behaviour, Snapshot;
    b := Extend(b0, Start(2, 2, 0));
    b := Extend(b, RunStep(2, ALL_WELL));
    var s := b[|b| - 1];
    assert 2 in s.runs && Underway(s, 1) && Underway(s, 2);
  }

  /** What the instance lock is needed for.  Were `run` called without it, generation 1 could be
      cancelled before its run's first write, which leaves a cancelled row, and generation 2 of
      another process replace it; the first write of generation 1 then replaces that one, and its
      row is queued again.  The two runs overlap, so it is no behaviour in which the lock is held. */
  lemma CancelledRowCanBeQueuedAgain() returns (b: seq<State>, n: nat)
    ensures Behaviour(1, b) && n < |b| && !LockHeld(b)
    ensures 0 in b[n].db.rows && b[n].db.rows[0].token == 1 && b[n].db.rows[0].status == Cancelled
    ensures 0 in b[|b| - 1].db.rows && b[|b| - 1].db.rows[0].token == 1 && b[|b| - 1].db.rows[0].status == Queued
  {
    var b0 := CancelledBeforeFirstWrite();
    n := |b0| - 1;
    b := Overtaken(b0);
    hide Behaviour, Snapshot, Locked;
    var overlap := |b| - 1;
    b := Extend(b, RunStep(1, ALL_WELL));
    assert b[n] == b0[n];
    assert !Locked(b[overlap]);
  }
}
