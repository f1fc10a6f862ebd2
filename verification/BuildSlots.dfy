/**
Which slot rows a live process has, over whole behaviours: those of its runs that have a
slot, and those that a run left behind and no cancelled run has cleared since.
*/
module BuildSlots {
  import opened Wrappers
  import opened BuildTasks
  import opened BuildProtocol
  import opened BuildSafety
  import opened BuildTheorems

  /** A run of the pair loses its slot without giving it back: it is interrupted between the
      grant and the assignment of `slot`, or while it gives the slot back, or giving it back
      fails. */
  predicate Leaves(s: State, e: Event, pid: Pid, i: Instance) {
    && e.RunStep? && e.t in s.runs && s.runs[e.t].pid == pid && s.runs[e.t].inst == i
    && ((s.runs[e.t].pc.Granted? && e.c.Interrupt?)
        || (s.runs[e.t].pc.ReleaseSlot? && s.runs[e.t].slot.Some? && (e.c.Interrupt? || e.c.DbFails?)))
  }

  /** A cancelled run of the pair clears every slot row of the pair on its way out. */
  predicate Clears(s: State, e: Event, pid: Pid, i: Instance) {
    && e.RunStep? && e.t in s.runs && s.runs[e.t].pid == pid && s.runs[e.t].inst == i
    && s.runs[e.t].pc.ReleaseRest? && s.runs[e.t].mem in {Cancelled, CancelFailed} && e.c.Go?
  }

  ghost predicate LeftAt(k: nat, s: State, s': State, pid: Pid, i: Instance) {
    exists e :: Next(k, s, e) == Some(s') && Leaves(s, e, pid, i)
  }

  ghost predicate ClearedAt(k: nat, s: State, s': State, pid: Pid, i: Instance) {
    exists e :: Next(k, s, e) == Some(s') && Clears(s, e, pid, i)
  }

  /** Before `n`, a slot row of the pair was left behind and not cleared since. */
  ghost predicate LeftSince(k: nat, b: seq<State>, n: nat, pid: Pid, i: Instance)
    requires n < |b|
  {
    exists m :: 0 <= m < n && LeftNotCleared(k, b, m, n, pid, i)
  }

  ghost predicate LeftNotCleared(k: nat, b: seq<State>, m: nat, n: nat, pid: Pid, i: Instance)
    requires m < n < |b|
  {
    && LeftAt(k, b[m], b[m + 1], pid, i)
    && forall j :: m < j < n ==> !ClearedAt(k, b[j], b[j + 1], pid, i)
  }

  predicate Carries(s: State, pid: Pid, i: Instance) {
    exists q :: q in s.db.slots && s.db.slots[q] == SlotRow(i, pid)
  }

  /** A run of the pair has slot `q`. */
  predicate HasSlot(s: State, q: nat, pid: Pid, i: Instance) {
    exists t :: t in s.runs && s.runs[t].pid == pid && s.runs[t].inst == i && Owned(s.runs[t]) == Some(q)
  }

  // ---- One step ---------------------------------------------------------------------------

  /** What a step of a run does to the slots, read off the step. */
  lemma EffectIs(k: nat, s: State, t: Token, c: Choice)
    requires Inv(k, s) && Next(k, s, RunStep(t, c)).Some?
    ensures var s' := Next(k, s, RunStep(t, c)).value;
            && t in s.runs && t in s'.runs && StepOf(k, s, s', t)
            && HasEffect(EffectOf(s.runs[t], s'.runs[t], c), s.runs[t], s'.runs[t], s.db, s'.db, k)
            && (c.Go? ==> s.alive <= c.probe)
  {
    hide RunNext, MemOk, Barred, CallHolds, TasksOk, HistoryOk, ProofsOk, EndsOk;
    RunKeeps(s.runs[t], t, s.db, k, c);
    RunSlots(s.runs[t], t, s.db, k, c);
  }

  lemma LeavesIffLeaks(r: Run, t: Token, db: Tables, k: nat, c: Choice)
    requires SlotFits(r) && RunNext(r, t, db, k, c).Some?
    ensures var r' := RunNext(r, t, db, k, c).value.0;
            EffectOf(r, r', c).Leaks? <==>
              || (r.pc.Granted? && c.Interrupt?)
              || (r.pc.ReleaseSlot? && r.slot.Some? && (c.Interrupt? || c.DbFails?))
  {
    hide CancelRequested, Update, TryAcquire, Upsert, Release, ReleaseInstance;
  }

  /** A step that is no step of a run leaves the slots, and what each run owns, alone. */
  predicate LeavesSlotsAlone(s: State, s': State) {
    && s'.db.slots == s.db.slots && s'.alive <= s.alive
    && (forall t :: t in s.runs ==>
          && t in s'.runs && s'.runs[t].pid == s.runs[t].pid && s'.runs[t].inst == s.runs[t].inst
          && Owned(s'.runs[t]) == Owned(s.runs[t]))
    && (forall t :: t in s'.runs && t !in s.runs ==> Owned(s'.runs[t]).None?)
  }

  lemma NoSlotTouched(k: nat, s: State, e: Event)
    requires Memory(s) && Next(k, s, e).Some? && !e.RunStep?
    ensures LeavesSlotsAlone(s, Next(k, s, e).value)
  {
    match e {
      case CancelStep(id, c) =>
        hide Next;
        NoSlotCancelled(k, s, id, c);
      case _ =>
    }
  }

  lemma NoSlotCancelled(k: nat, s: State, id: nat, c: Choice)
    requires Memory(s) && Next(k, s, CancelStep(id, c)).Some?
    ensures LeavesSlotsAlone(s, Next(k, s, CancelStep(id, c)).value)
  {
    hide CancelTask, CancelRow, MemOk, Barred, Writes, Moves;
    var x := s.cancels[id];
    assert CallHolds(s, id, x);
    if !c.Raise? {
      if TaskOf(s, x).Some? {
        CancelTaskKeeps(x.pc, TaskOf(s, x).value, s.runs[TaskOf(s, x).value], s.db, c);
      } else if !x.pc.Enter? {
        CancelRowMoves(x.pc, x.inst, s.db, c);
      }
    }
  }

  // ---- A row that was left stays ------------------------------------------------------------

  /** A slot row of the pair that no run of a live process has. */
  predicate Orphan(s: State, q: nat, pid: Pid, i: Instance) {
    && q in s.db.slots && s.db.slots[q] == SlotRow(i, pid)
    && forall t :: t in s.runs && s.runs[t].pid in s.alive ==> Owned(s.runs[t]) != Some(q)
  }

  lemma LeavesAnOrphan(k: nat, s: State, e: Event, pid: Pid, i: Instance)
    requires Inv(k, s) && Next(k, s, e).Some? && Leaves(s, e, pid, i)
    ensures exists q :: Orphan(Next(k, s, e).value, q, pid, i)
  {
    var s' := Next(k, s, e).value;
    EffectIs(k, s, e.t, e.c);
    LeavesIffLeaks(s.runs[e.t], e.t, s.db, k, e.c);
    hide Next, Inv, Memory, EffectOf, SlotFits;
    assert OwnsItsSlot(s, e.t);
    var q := Owned(s.runs[e.t]).value;
    forall t | t in s'.runs && s'.runs[t].pid in s'.alive ensures Owned(s'.runs[t]) != Some(q) {
      if t != e.t { assert Apart(s, e.t, t); }
    }
    assert Orphan(s', q, pid, i);
  }

  lemma OrphanStays(k: nat, s: State, e: Event, q: nat, pid: Pid, i: Instance)
    requires Inv(k, s) && Next(k, s, e).Some? && Orphan(s, q, pid, i) && pid in Next(k, s, e).value.alive
    requires !Clears(s, e, pid, i)
    ensures Orphan(Next(k, s, e).value, q, pid, i)
  {
    var s' := Next(k, s, e).value;
    if e.RunStep? {
      EffectIs(k, s, e.t, e.c);
      var f := EffectOf(s.runs[e.t], s'.runs[e.t], e.c);
      if f.Acquires? { GrantedSlotWasFree(s.db, f.probe, k, s.runs[e.t].inst, s.runs[e.t].pid); }
      hide Next, Inv, SlotFits, SlotsOk, TryAcquire;
    } else {
      NoSlotTouched(k, s, e);
      hide Next, Inv;
    }
  }

  lemma {:induction false} OrphanStaysAlong(k: nat, b: seq<State>, m: nat, n: nat, q: nat, pid: Pid, i: Instance)
    requires Behaviour(k, b) && m <= n < |b| && Orphan(b[m], q, pid, i) && pid in b[n].alive
    requires forall j :: m <= j < n ==> !ClearedAt(k, b[j], b[j + 1], pid, i)
    ensures Orphan(b[n], q, pid, i)
    decreases n - m
  {
    hide Next, Inv, Init, Clears, Orphan;
    if m < n {
      InvAlong(k, b, n - 1);
      assert Step(k, b[n - 1], b[n]);
      var e :| Next(k, b[n - 1], e) == Some(b[n]);
      FewerAlive(k, b[n - 1], e);
      OrphanStaysAlong(k, b, m, n - 1, q, pid, i);
      assert !ClearedAt(k, b[n - 1], b[(n - 1) + 1], pid, i);
      OrphanStays(k, b[n - 1], e, q, pid, i);
    }
  }

  lemma FewerAlive(k: nat, s: State, e: Event)
    requires Inv(k, s) && Next(k, s, e).Some?
    ensures Next(k, s, e).value.alive <= s.alive
  {
    InvParts(k, s);
    RunsAppear(k, s, e);
  }

  // ---- A row there is has been left, or is in use --------------------------------------------

  lemma ClearedIsGone(k: nat, s: State, e: Event, pid: Pid, i: Instance)
    requires Inv(k, s) && Next(k, s, e).Some? && Clears(s, e, pid, i)
    ensures !Carries(Next(k, s, e).value, pid, i)
  {
    EffectIs(k, s, e.t, e.c);
    hide Next, Inv, SlotsOk, TryAcquire;
  }

  /** Where a slot row comes from: a run had it before and has it now, or left it in this very
      step, or the row is new and its run has it, or it was an orphan already. */
  lemma RowComesFrom(k: nat, s: State, e: Event, q: nat)
    requires Inv(k, s) && Next(k, s, e).Some?
    requires q in Next(k, s, e).value.db.slots
    ensures var s' := Next(k, s, e).value;
            var pid, i := s'.db.slots[q].pid, s'.db.slots[q].instance;
            || HasSlot(s', q, pid, i)
            || Leaves(s, e, pid, i)
            || (q in s.db.slots && s.db.slots[q] == s'.db.slots[q] && !HasSlot(s, q, pid, i))
  {
    var s' := Next(k, s, e).value;
    var pid, i := s'.db.slots[q].pid, s'.db.slots[q].instance;
    if e.RunStep? {
      EffectIs(k, s, e.t, e.c);
      LeavesIffLeaks(s.runs[e.t], e.t, s.db, k, e.c);
      hide Next, Inv, HasSlot;
      RowAfterRunStep(k, s, s', e.t, EffectOf(s.runs[e.t], s'.runs[e.t], e.c), q);
    } else {
      NoSlotTouched(k, s, e);
      hide Next, Inv;
      if HasSlot(s, q, pid, i) {
        var t :| t in s.runs && s.runs[t].pid == pid && s.runs[t].inst == i && Owned(s.runs[t]) == Some(q);
        assert Owned(s'.runs[t]) == Some(q);
      }
    }
  }

  lemma RowAfterRunStep(k: nat, s: State, s': State, t: Token, f: SlotEffect, q: nat)
    requires StepOf(k, s, s', t) && HasEffect(f, s.runs[t], s'.runs[t], s.db, s'.db, k)
    requires q in s'.db.slots
    ensures var pid, i := s'.db.slots[q].pid, s'.db.slots[q].instance;
            || HasSlot(s', q, pid, i)
            || (f.Leaks? && s.runs[t].pid == pid && s.runs[t].inst == i)
            || (q in s.db.slots && s.db.slots[q] == s'.db.slots[q] && !HasSlot(s, q, pid, i))
  {
    var pid, i := s'.db.slots[q].pid, s'.db.slots[q].instance;
    if f.Acquires? { GrantedSlotWasFree(s.db, f.probe, k, s.runs[t].inst, s.runs[t].pid); }
    assert OwnsItsSlot(s, t);
    hide SlotsOk, TryAcquire, SlotFits;
    if f.Acquires? && Owned(s'.runs[t]) == Some(q) {
      assert t in s'.runs && Owned(s'.runs[t]) == Some(q);
    } else if HasSlot(s, q, pid, i) {
      var u :| u in s.runs && s.runs[u].pid == pid && s.runs[u].inst == i && Owned(s.runs[u]) == Some(q);
      assert u in s'.runs && (Owned(s'.runs[u]) == Some(q) || u == t);
    }
  }

  lemma LeftSinceGrows(k: nat, b: seq<State>, n: nat, pid: Pid, i: Instance)
    requires 0 < n < |b| && LeftSince(k, b, n - 1, pid, i) && !ClearedAt(k, b[n - 1], b[n], pid, i)
    ensures LeftSince(k, b, n, pid, i)
  {
    hide LeftAt, ClearedAt;
    var m :| 0 <= m < n - 1 && LeftNotCleared(k, b, m, n - 1, pid, i);
    forall j | m < j < n ensures !ClearedAt(k, b[j], b[j + 1], pid, i) { }
    assert LeftNotCleared(k, b, m, n, pid, i);
  }

  /** Every slot row of a live process belongs to a run that has the slot, or was left. */
  lemma {:induction false} RowTraced(k: nat, b: seq<State>, n: nat, q: nat, pid: Pid, i: Instance)
    requires Behaviour(k, b) && n < |b| && q in b[n].db.slots && b[n].db.slots[q] == SlotRow(i, pid) && pid in b[n].alive
    ensures HasSlot(b[n], q, pid, i) || LeftSince(k, b, n, pid, i)
  {
    hide Next, Inv, HasSlot, Leaves, Clears, LeftSince;
    if n > 0 {
      InvAlong(k, b, n - 1);
      assert Step(k, b[n - 1], b[n]);
      var e :| Next(k, b[n - 1], e) == Some(b[n]);
      FewerAlive(k, b[n - 1], e);
      RowComesFrom(k, b[n - 1], e, q);
      if Leaves(b[n - 1], e, pid, i) {
        LeftJustNow(k, b, n, pid, i, e);
      } else if !HasSlot(b[n], q, pid, i) {
        RowTraced(k, b, n - 1, q, pid, i);
        NotClearedNow(k, b, n, q, pid, i);
        LeftSinceGrows(k, b, n, pid, i);
      }
    }
  }

  lemma LeftJustNow(k: nat, b: seq<State>, n: nat, pid: Pid, i: Instance, e: Event)
    requires 0 < n < |b| && Next(k, b[n - 1], e) == Some(b[n]) && Leaves(b[n - 1], e, pid, i)
    ensures LeftSince(k, b, n, pid, i)
  {
    hide Next, Leaves;
    var m := n - 1;
    assert b[n] == b[m + 1];
    assert LeftNotCleared(k, b, m, n, pid, i);
  }

  lemma NotClearedNow(k: nat, b: seq<State>, n: nat, q: nat, pid: Pid, i: Instance)
    requires 0 < n < |b| && Inv(k, b[n - 1]) && q in b[n].db.slots && b[n].db.slots[q] == SlotRow(i, pid)
    ensures !ClearedAt(k, b[n - 1], b[n], pid, i)
  {
    hide Next, Inv, Clears;
    if ClearedAt(k, b[n - 1], b[n], pid, i) {
      var e :| Next(k, b[n - 1], e) == Some(b[n]) && Clears(b[n - 1], e, pid, i);
      ClearedIsGone(k, b[n - 1], e, pid, i);
    }
  }

  lemma LeftIsStillThere(k: nat, b: seq<State>, n: nat, pid: Pid, i: Instance)
    requires Behaviour(k, b) && n < |b| && pid in b[n].alive && LeftSince(k, b, n, pid, i)
    ensures Carries(b[n], pid, i)
  {
    hide Next, Inv, Init, Leaves, Clears;
    var m :| 0 <= m < n && LeftNotCleared(k, b, m, n, pid, i);
    var e :| Next(k, b[m], e) == Some(b[m + 1]) && Leaves(b[m], e, pid, i);
    InvAlong(k, b, m);
    LeavesAnOrphan(k, b[m], e, pid, i);
    var q :| Orphan(b[m + 1], q, pid, i);
    OrphanStaysAlong(k, b, m + 1, n, q, pid, i);
  }

  /** At every moment a live process has a slot row for an instance exactly when one of its runs
      of the instance has a slot, or one left its slot row behind and no cancelled run of the
      instance in that process has cleared it since. */
  lemma SlotRowsIff(k: nat, b: seq<State>, n: nat, pid: Pid, i: Instance)
    requires Behaviour(k, b) && n < |b| && pid in b[n].alive
    ensures Carries(b[n], pid, i) <==> (exists q :: HasSlot(b[n], q, pid, i)) || LeftSince(k, b, n, pid, i)
  {
    hide Behaviour, LeftSince;
    if Carries(b[n], pid, i) {
      var q :| q in b[n].db.slots && b[n].db.slots[q] == SlotRow(i, pid);
      RowTraced(k, b, n, q, pid, i);
    }
    if q :| HasSlot(b[n], q, pid, i) {
      InvAlong(k, b, n);
      HasSlotHasRow(k, b[n], q, pid, i);
    }
    if LeftSince(k, b, n, pid, i) { LeftIsStillThere(k, b, n, pid, i); }
  }

  lemma HasSlotHasRow(k: nat, s: State, q: nat, pid: Pid, i: Instance)
    requires Inv(k, s) && HasSlot(s, q, pid, i) && pid in s.alive
    ensures Carries(s, pid, i)
  {
    hide Memory, HistoryOk, ProofsOk, EndsOk, SlotFits;
    var t :| t in s.runs && s.runs[t].pid == pid && s.runs[t].inst == i && Owned(s.runs[t]) == Some(q);
    assert OwnsItsSlot(s, t);
  }

  /** So once the runs of a pair are over, its slot row is there exactly when one was left and
      not cleared: an exit of `run` gives the slot back but for an interrupt between the grant
      and the assignment, or an interrupt or a failure while the slot is given back. */
  lemma ExitLeavesTheSlotIff(k: nat, b: seq<State>, n: nat, pid: Pid, i: Instance)
    requires Behaviour(k, b) && n < |b| && pid in b[n].alive
    requires forall t :: t in b[n].runs && b[n].runs[t].pid == pid && b[n].runs[t].inst == i ==> Finished(b[n].runs[t].pc)
    ensures Carries(b[n], pid, i) <==> LeftSince(k, b, n, pid, i)
  {
    hide *;
    SlotRowsIff(k, b, n, pid, i);
    InvAlong(k, b, n);
    if q :| HasSlot(b[n], q, pid, i) {
      FinishedHasNone(k, b[n], q, pid, i);
    }
  }

  lemma FinishedHasNone(k: nat, s: State, q: nat, pid: Pid, i: Instance)
    requires Inv(k, s)
    requires forall t :: t in s.runs && s.runs[t].pid == pid && s.runs[t].inst == i ==> Finished(s.runs[t].pc)
    ensures !HasSlot(s, q, pid, i)
  {
    hide Memory, HistoryOk, ProofsOk, EndsOk;
    forall t | t in s.runs && Finished(s.runs[t].pc) ensures Owned(s.runs[t]).None? {
      assert SlotFits(s.runs[t]);
    }
  }
}
