/**
What the build queue promises, over whole behaviours: any number of processes, runs and
cancelling calls, interleaved in any way, with processes dying at any point and database
calls failing at any point.
*/
module BuildTheorems {
  import opened Wrappers
  import opened BuildTasks
  import opened BuildProtocol
  import opened BuildSafety

  // ---- Carrying facts along a behaviour ---------------------------------------------

  lemma {:induction false} InvAlong(k: nat, b: seq<State>, n: nat)
    requires Behaviour(k, b) && n < |b|
    ensures Inv(k, b[n])
  {
    hide Next, Inv;
    if n == 0 {
      InvAtStart(k, b[0]);
    } else {
      InvAlong(k, b, n - 1);
      assert Step(k, b[n - 1], b[n]);
      var e :| Next(k, b[n - 1], e) == Some(b[n]);
      InvHolds(k, b[n - 1], e);
    }
  }

  /** What time does not take back. */
  predicate Later(s: State, s': State) {
    && RunsGrow(s, s')
    && s.seen <= s'.seen
    && (forall t :: t in s.runs && Finished(s.runs[t].pc) ==> s'.runs[t].pc == s.runs[t].pc)
    && (forall t :: t in s.runs && s.runs[t].began ==> s'.runs[t].began)
    && (forall t :: t in s.runs && Barred(s.runs[t]) && !s.runs[t].began ==> !s'.runs[t].began)
    && (forall id :: id in s.cancels ==> id in s'.cancels && (CancelOver(s.cancels[id].pc) ==> s'.cancels[id] == s.cancels[id]))
  }

  lemma LaterIsTransitive(s: State, s1: State, s2: State)
    requires Later(s, s1) && Later(s1, s2)
    ensures Later(s, s2)
  {
    hide Barred;
  }

  lemma StepIsLater(k: nat, s: State, e: Event)
    requires Inv(k, s) && Next(k, s, e).Some?
    ensures Later(s, Next(k, s, e).value)
  {
    MemoryHolds(k, s, e);
    StepRows(k, s, e);
    RunsOnlyAdvance(k, s, e);
    CallsOnlyAdvance(k, s, e);
    hide Next, Inv, Barred, OpenedBy;
    var s' := Next(k, s, e).value;
    forall t | t in s.runs && Barred(s.runs[t]) && !s.runs[t].began ensures !s'.runs[t].began {
      assert BackedByRow(s, s', t);
      BarredIsNotReady(s.runs[t]);
    }
  }

  lemma BarredIsNotReady(r: Run)
    requires Barred(r)
    ensures !r.pc.Ready?
  {
  }

  lemma RunsOnlyAdvance(k: nat, s: State, e: Event)
    requires Memory(s) && Next(k, s, e).Some?
    ensures var s' := Next(k, s, e).value;
            forall t :: t in s.runs ==>
              && t in s'.runs && (Finished(s.runs[t].pc) ==> s'.runs[t].pc == s.runs[t].pc)
              && (s.runs[t].began ==> s'.runs[t].began)
  {
    match e {
      case RunStep(t, c) =>
        RunLater(s.runs[t], t, s.db, k, c);
        hide RunNext;
      case CancelStep(id, c) =>
        CancelLater(k, s, id, c);
        hide Next;
      case _ =>
    }
  }

  lemma CallsOnlyAdvance(k: nat, s: State, e: Event)
    requires Memory(s) && Next(k, s, e).Some?
    ensures var s' := Next(k, s, e).value;
            forall id :: id in s.cancels ==>
              id in s'.cancels && (CancelOver(s.cancels[id].pc) ==> s'.cancels[id] == s.cancels[id])
  {
    match e {
      case RunStep(t, c) => hide RunNext;
      case CancelStep(id, c) =>
        CancelLater(k, s, id, c);
        hide Next;
      case _ =>
    }
  }

  lemma RunLater(r: Run, t: Token, db: Tables, k: nat, c: Choice)
    requires RunNext(r, t, db, k, c).Some?
    ensures !Finished(r.pc) && (r.began ==> RunNext(r, t, db, k, c).value.0.began)
  {
    hide RunQueues, RunSettles, RunBuilds, Update, CancelRequested;
    if c.Go? || c.DbFails? {
      PartsLater(r, t, db, k, c);
    }
  }

  lemma PartsLater(r: Run, t: Token, db: Tables, k: nat, c: Choice)
    requires c.Go? || c.DbFails?
    ensures var next := RunQueues(r, t, db, k, c); next.Some? ==> !Finished(r.pc) && (r.began ==> next.value.0.began)
    ensures var next := RunSettles(r, t, db, c); next.Some? ==> !Finished(r.pc) && (r.began ==> next.value.0.began)
    ensures var next := RunBuilds(r, t, db, c); next.Some? ==> !Finished(r.pc) && (r.began ==> next.value.0.began)
  {
    hide Persist, TryAcquire, CancelRequested, Release, ReleaseInstance;
  }

  lemma CancelLater(k: nat, s: State, id: nat, c: Choice)
    requires Memory(s) && Next(k, s, CancelStep(id, c)).Some?
    ensures var s' := Next(k, s, CancelStep(id, c)).value;
            && (forall t :: t in s.runs ==> t in s'.runs && s'.runs[t].pc == s.runs[t].pc && s'.runs[t].began == s.runs[t].began)
            && id in s.cancels && !CancelOver(s.cancels[id].pc)
            && id in s'.cancels && s'.cancels == s.cancels[id := s'.cancels[id]]
  {
    hide CancelTask, CancelRow, MemOk, Barred;
    var x := s.cancels[id];
    assert CallHolds(s, id, x);
    if !c.Raise? && TaskOf(s, x).Some? {
      CancelTaskKeeps(x.pc, TaskOf(s, x).value, s.runs[TaskOf(s, x).value], s.db, c);
    }
  }

  lemma {:induction false} LaterAlong(k: nat, b: seq<State>, m: nat, n: nat)
    requires Behaviour(k, b) && m <= n < |b|
    ensures Later(b[m], b[n])
    decreases n - m
  {
    hide Next, Inv, Later, Init;
    if m == n {
      SameIsLater(b[m]);
    } else {
      LaterAlong(k, b, m, n - 1);
      InvAlong(k, b, n - 1);
      assert Step(k, b[n - 1], b[n]);
      var e :| Next(k, b[n - 1], e) == Some(b[n]);
      StepIsLater(k, b[n - 1], e);
      LaterIsTransitive(b[m], b[n - 1], b[n]);
    }
  }

  lemma SameIsLater(s: State)
    ensures Later(s, s)
  {
  }

  // ---- Results and cancels --------------------------------------------------------------

  /** A cancelling call has answered that generation `t` is cancelled: from the task object,
      or, across processes, with a row behind the answer. */
  predicate AnsweredCancelled(s: State, id: nat, t: Token) {
    && id in s.cancels && s.cancels[id].pc.Replied? && s.cancels[id].pc.outcome.OutCancelled?
    && s.cancels[id].pc.about == Some(t)
    && (s.cancels[id].pc.crossProcess ==> s.cancels[id].pc.written)
  }

  predicate HasReturned(s: State, t: Token) {
    t in s.runs && s.runs[t].pc.Returned?
  }

  /** If `run` ever returns the builder's result, then at no time, before or after, was a
      cancelling or cancelled row of that generation committed. */
  lemma ReturnedMeansNoCancelWasCommitted(k: nat, b: seq<State>, m: nat, n: nat, t: Token, x: Seen)
    requires Behaviour(k, b) && m < |b| && n < |b|
    requires HasReturned(b[m], t) && x in b[n].seen && x.token == t
    ensures x.status !in {Cancelling, Cancelled}
  {
    hide *;
    var last := |b| - 1;
    LaterAlong(k, b, m, last);
    LaterAlong(k, b, n, last);
    InvAlong(k, b, last);
    ReturnStays(b[m], b[last], t);
    SeenStays(b[n], b[last], x);
    ReturnExcludesCancelled(k, b[last], t, x);
  }

  lemma SeenStays(s: State, s': State, x: Seen)
    requires Later(s, s') && x in s.seen
    ensures x in s'.seen
  {
    hide RunsGrow, Barred;
  }

  lemma ReturnExcludesCancelled(k: nat, s: State, t: Token, x: Seen)
    requires Inv(k, s) && HasReturned(s, t) && x in s.seen && x.token == t
    ensures x.status !in {Cancelling, Cancelled}
  {
    hide Memory, HistoryOk, SlotsOk, EndsOk;
    assert ProofOk(s, t);
  }

  /** If `run` ever returns the builder's result, no cancelling call ever answers, in this
      process or with a row behind its answer, that the generation was cancelled. */
  lemma ReturnedMeansNoCancelWasAnswered(k: nat, b: seq<State>, m: nat, n: nat, t: Token, id: nat)
    requires Behaviour(k, b) && m < |b| && n < |b| && HasReturned(b[m], t)
    ensures !AnsweredCancelled(b[n], id, t)
  {
    hide Behaviour;
    if AnsweredCancelled(b[n], id, t) {
      if b[n].cancels[id].pc.crossProcess {
        AnswersHaveRows(k, b, n, id);
        var inst :| Seen(inst, t, Cancelled) in b[n].seen;
        ReturnedMeansNoCancelWasCommitted(k, b, m, n, t, Seen(inst, t, Cancelled));
      } else {
        AnsweredHereIsBarred(k, b, m, n, t, id);
      }
    }
  }

  /** An answer from the task object, given at any time, bars the run for good. */
  lemma AnsweredHereIsBarred(k: nat, b: seq<State>, m: nat, n: nat, t: Token, id: nat)
    requires Behaviour(k, b) && m < |b| && n < |b|
    requires AnsweredCancelled(b[n], id, t) && !b[n].cancels[id].pc.crossProcess
    ensures !HasReturned(b[m], t)
  {
    hide *;
    var last := |b| - 1;
    LaterAlong(k, b, m, last);
    LaterAlong(k, b, n, last);
    InvAlong(k, b, last);
    AnswerStays(b[n], b[last], id, t);
    AnswerExcludesReturn(k, b[last], id, t);
    if HasReturned(b[m], t) { ReturnStays(b[m], b[last], t); }
  }

  lemma ReturnStays(s: State, s': State, t: Token)
    requires Later(s, s') && HasReturned(s, t)
    ensures HasReturned(s', t)
  {
    hide Barred;
  }

  lemma AnswerStays(s: State, s': State, id: nat, t: Token)
    requires Later(s, s') && AnsweredCancelled(s, id, t)
    ensures AnsweredCancelled(s', id, t) && s'.cancels[id].pc == s.cancels[id].pc
  {
    hide RunsGrow, Barred;
  }

  lemma AnswerExcludesReturn(k: nat, s: State, id: nat, t: Token)
    requires Inv(k, s) && AnsweredCancelled(s, id, t) && !s.cancels[id].pc.crossProcess
    ensures !HasReturned(s, t)
  {
    hide TasksOk, RunsOk, HistoryOk, ProofsOk, SlotsOk, EndsOk;
    assert CallHolds(s, id, s.cancels[id]);
  }

  /** Behind an answer "cancelled" across processes that was written or read there is a
      committed cancelled row. */
  ghost predicate AnswerHasRow(s: State, id: nat)
    requires id in s.cancels
  {
    var pc := s.cancels[id].pc;
    pc.Replied? && pc.outcome.OutCancelled? && pc.crossProcess && pc.written && pc.about.Some? ==>
      exists inst :: Seen(inst, pc.about.value, Cancelled) in s.seen
  }

  lemma {:induction false} AnswersHaveRows(k: nat, b: seq<State>, n: nat, id: nat)
    requires Behaviour(k, b) && n < |b| && id in b[n].cancels
    ensures AnswerHasRow(b[n], id)
  {
    if n > 0 {
      InvAlong(k, b, n - 1);
      assert Step(k, b[n - 1], b[n]);
      var e :| Next(k, b[n - 1], e) == Some(b[n]);
      StepIsLater(k, b[n - 1], e);
      if id in b[n - 1].cancels && b[n - 1].cancels[id] == b[n].cancels[id] {
        AnswersHaveRows(k, b, n - 1, id);
      } else {
        AnswerGetsRow(k, b[n - 1], e, id);
      }
    }
  }

  lemma AnswerGetsRow(k: nat, s: State, e: Event, id: nat)
    requires Inv(k, s) && Next(k, s, e).Some?
    requires id in Next(k, s, e).value.cancels
    requires !(id in s.cancels && s.cancels[id] == Next(k, s, e).value.cancels[id])
    ensures AnswerHasRow(Next(k, s, e).value, id)
  {
    var s' := Next(k, s, e).value;
    match e {
      case RunStep(t, c) => hide RunNext;
      case CancelStep(_, c) =>
        hide CancelTask, CancelRow, MemOk, Barred, HistoryOk, ProofsOk, SlotsOk;
        var x := s.cancels[id];
        assert CallHolds(s, id, x);
        if !c.Raise? && TaskOf(s, x).Some? {
          CancelTaskKeeps(x.pc, TaskOf(s, x).value, s.runs[TaskOf(s, x).value], s.db, c);
        } else if !c.Raise? && !x.pc.Enter? {
          CancelRowMoves(x.pc, x.inst, s.db, c);
          var pc' := s'.cancels[id].pc;
          if pc'.Replied? && pc'.outcome.OutCancelled? && pc'.written && pc'.about.Some? {
            assert Seen(x.inst, pc'.about.value, Cancelled) in Snapshot(s'.db.rows);
          }
        }
      case _ =>
    }
  }

  /** The row is of generation `t` and can still become cancelled. */
  predicate StillOpen(rows: Rows, i: Instance, t: Token) {
    i in rows && rows[i].token == t && rows[i].status !in {Success, Failed, CancelFailed}
  }

  /** Across processes, a call that found the row queued, or its owner gone, writes and answers
      "cancelled" whatever becomes of the write.  It is the answer that the row then gives, and
      that the look-up recorded in `written` gives, exactly when at the write the row still
      belongs to the generation and has not moved on to success, failed or cancel_failed since
      it was read; and then the run never returns a result. */
  lemma AnswerAcrossProcessesIff(k: nat, b: seq<State>, m: nat, id: nat, c: Choice, t: Token)
    requires Behaviour(k, b) && m + 1 < |b| && id in b[m].cancels
    requires b[m].cancels[id].pc == CancelQueuedRow(t) || b[m].cancels[id].pc == CancelOrphanRow(t)
    requires Next(k, b[m], CancelStep(id, c)) == Some(b[m + 1]) && !c.Raise?
    ensures var i, rows, rows' := b[m].cancels[id].inst, b[m].db.rows, b[m + 1].db.rows;
            && id in b[m + 1].cancels
            && b[m + 1].cancels[id].pc == Replied(OutCancelled, Some(t), true, StillOpen(rows, i, t))
            && (StillOpen(rows, i, t) <==> i in rows' && rows'[i].token == t && rows'[i].status == Cancelled)
            && (StillOpen(rows, i, t) ==> forall n :: 0 <= n < |b| ==> !HasReturned(b[n], t))
            && (!StillOpen(rows, i, t) ==> rows' == rows)
  {
    hide Behaviour;
    WriteIsTakenIff(b[m].cancels[id].pc, b[m].cancels[id].inst, b[m].db, c, t);
    hide CancelRow, StillOpen;
    if StillOpen(b[m].db.rows, b[m].cancels[id].inst, t) {
      forall n: nat | n < |b| ensures !HasReturned(b[n], t) {
        if HasReturned(b[n], t) { ReturnedMeansNoCancelWasAnswered(k, b, n, m + 1, t, id); }
      }
    }
  }

  lemma WriteIsTakenIff(pc: CancelPc, i: Instance, db: Tables, c: Choice, t: Token)
    requires (pc == CancelQueuedRow(t) || pc == CancelOrphanRow(t)) && (c.Go? || c.TimesOut?)
    ensures CancelRow(pc, i, db, c).Some?
    ensures var (pc', db') := CancelRow(pc, i, db, c).value;
            && pc' == Replied(OutCancelled, Some(t), true, StillOpen(db.rows, i, t))
            && (StillOpen(db.rows, i, t) <==>
                  i in db'.rows && db'.rows[i].token == t && db'.rows[i].status == Cancelled)
            && (!StillOpen(db.rows, i, t) ==> db'.rows == db.rows)
  {
  }

  // ---- The builder ------------------------------------------------------------------------

  /** A builder that has been called was called after its row was committed as building. */
  lemma BuilderNeedsBuildingRow(k: nat, b: seq<State>, n: nat, t: Token)
    requires Behaviour(k, b) && n < |b| && t in b[n].runs && b[n].runs[t].began
    ensures Seen(b[n].runs[t].inst, t, Building) in b[n].seen
  {
    InvAlong(k, b, n);
    hide Behaviour, Memory, HistoryOk, SlotsOk;
    assert ProofOk(b[n], t);
  }

  /** A generation with a cancelled row and, so far, no building row never gets its builder
      called. */
  lemma {:induction false} CancelledWhileQueuedNeverBuilds(k: nat, b: seq<State>, m: nat, n: nat, t: Token, i: Instance)
    requires Behaviour(k, b) && m <= n < |b|
    requires Seen(i, t, Cancelled) in b[m].seen && Seen(i, t, Building) !in b[m].seen
    requires t in b[m].runs
    ensures t in b[n].runs && !b[n].runs[t].began && !b[n].runs[t].pc.Ready?
    decreases n - m
  {
    hide Next, Behaviour, Memory, SlotsOk, Barred;
    var cancelled := Seen(i, t, Cancelled);
    InvAlong(k, b, n);
    LaterAlong(k, b, m, n);
    assert Fits(b[m], cancelled) by { InvAlong(k, b, m); }
    if m == n {
      assert ProofOk(b[n], t);
    } else {
      CancelledWhileQueuedNeverBuilds(k, b, m, n - 1, t, i);
      InvAlong(k, b, n - 1);
      StepBacked(k, b, n, t);
      assert Fits(b[n], cancelled);
      ReadyIsNotBarred(b[n].runs[t]);
    }
  }

  lemma StepBacked(k: nat, b: seq<State>, n: nat, t: Token)
    requires Behaviour(k, b) && 0 < n < |b| && t in b[n].runs
    ensures BackedByRow(b[n - 1], b[n], t)
  {
    hide Next, Init, BackedByRow;
    InvAlong(k, b, n - 1);
    assert Step(k, b[n - 1], b[n]);
    var e :| Next(k, b[n - 1], e) == Some(b[n]);
    StepRows(k, b[n - 1], e);
  }

  lemma ReadyIsNotBarred(r: Run)
    ensures r.pc.Ready? ==> !Barred(r)
  {
  }

  /** When a call of `cancel` in this process has answered "cancelled", the builder of that
      generation is not executing then or ever after, is not called any more, and its result
      is never returned. */
  lemma AnswerInProcessIsFinal(k: nat, b: seq<State>, m: nat, n: nat, id: nat, t: Token)
    requires Behaviour(k, b) && m <= n < |b|
    requires AnsweredCancelled(b[m], id, t) && !b[m].cancels[id].pc.crossProcess
    ensures t in b[m].runs && t in b[n].runs
    ensures !b[n].runs[t].pc.Executing? && !b[n].runs[t].pc.Returned?
    ensures b[n].runs[t].began ==> b[m].runs[t].began
  {
    InvAlong(k, b, m);
    LaterAlong(k, b, m, n);
    assert CallHolds(b[m], id, b[m].cancels[id]);
  }

  // ---- The slots ------------------------------------------------------------------------

  /** The builders of live processes that are executing. */
  function Executing(s: State): set<Token> {
    set t | t in s.runs && s.runs[t].pid in s.alive && s.runs[t].pc.Executing?
  }

  lemma {:induction false} BoundedBySlots(s: State, k: nat, ts: set<Token>)
    requires forall t :: t in ts ==> t in s.runs && s.runs[t].slot.Some? && s.runs[t].slot.value < k
    requires forall t, u :: t in ts && u in ts && t != u ==> s.runs[t].slot != s.runs[u].slot
    ensures |ts| <= k
    decreases k
  {
    if k == 0 {
      assert forall t :: t !in ts;
      assert ts == {};
    } else if u :| u in ts && s.runs[u].slot.value == k - 1 {
      BoundedBySlots(s, k - 1, ts - {u});
    } else {
      BoundedBySlots(s, k - 1, ts);
    }
  }

  /** At every moment at most K builders of live processes execute, each on a slot row of
      its own in [0, K). */
  lemma AtMostKBuildersExecute(k: nat, b: seq<State>, n: nat)
    requires Behaviour(k, b) && n < |b|
    ensures |Executing(b[n])| <= k
    ensures forall t :: t in Executing(b[n]) ==>
              var r := b[n].runs[t];
              && r.slot.Some? && r.slot.value < k
              && r.slot.value in b[n].db.slots && b[n].db.slots[r.slot.value] == SlotRow(r.inst, r.pid)
    ensures forall t, u :: t in Executing(b[n]) && u in Executing(b[n]) && t != u ==> b[n].runs[t].slot != b[n].runs[u].slot
  {
    InvAlong(k, b, n);
    hide Behaviour, Memory, HistoryOk, ProofsOk;
    var s := b[n];
    forall t | t in Executing(s) ensures s.runs[t].slot.Some? {
      assert SlotFits(s.runs[t]) && OwnsItsSlot(s, t);
    }
    hide SlotFits;
    forall t, u | t in Executing(s) && u in Executing(s) && t != u ensures s.runs[t].slot != s.runs[u].slot {
      assert Apart(s, t, u);
    }
    forall t | t in Executing(s)
      ensures s.runs[t].slot.value < k && s.runs[t].slot.value in s.db.slots
              && s.db.slots[s.runs[t].slot.value] == SlotRow(s.runs[t].inst, s.runs[t].pid)
    {
      assert OwnsItsSlot(s, t);
    }
    BoundedBySlots(s, k, Executing(s));
  }

  /** Every exit of `run` gives its slot back: once the runs a live process made for an
      instance are over, and none of them left a slot row behind, no slot row carries the pair.
      A run leaves one behind when giving it back fails, or when it is interrupted there or
      between the grant and the assignment of `slot`, and is not cancelled. */
  lemma ExitGivesTheSlotBack(k: nat, b: seq<State>, n: nat, pid: Pid, i: Instance)
    requires Behaviour(k, b) && n < |b| && pid in b[n].alive
    requires forall t :: t in b[n].runs && b[n].runs[t].pid == pid && b[n].runs[t].inst == i ==>
               Finished(b[n].runs[t].pc) && !b[n].runs[t].leaked
    ensures forall m :: m in b[n].db.slots ==> b[n].db.slots[m] != SlotRow(i, pid)
  {
    InvAlong(k, b, n);
    hide Behaviour, Memory, HistoryOk, ProofsOk;
    var s := b[n];
    forall m | m in s.db.slots ensures s.db.slots[m] != SlotRow(i, pid) {
      assert SlotAccounted(s, m);
      if s.db.slots[m].pid == pid {
        var t :| t in s.runs && Accounts(s.runs[t], s.db.slots[m], m);
        assert SlotFits(s.runs[t]);
      }
    }
  }

  // ---- The rows ----------------------------------------------------------------------

  /** If the row still belongs to `x`'s generation, it has moved along the table since `x`. */
  predicate Tracks(s: State, x: Seen) {
    x.inst in s.db.rows && (s.db.rows[x.inst].token == x.token ==> Leads(x.status, s.db.rows[x.inst].status))
  }

  predicate Lost(s: State, x: Seen) {
    x.inst in s.db.rows && s.db.rows[x.inst].token != x.token
  }

  lemma RowFollowed(s: State, s': State, x: Seen)
    requires RowsStep(s, s') && RunsGrow(s, s')
    ensures Tracks(s, x) ==> Tracks(s', x) || FirstWrite(s, s', x.token)
    ensures Lost(s, x) ==> Lost(s', x) || FirstWrite(s, s', x.token)
  {
    hide Barred, Snapshot;
  }

  lemma {:induction false} RowFollowedAlong(k: nat, b: seq<State>, m: nat, n: nat, x: Seen)
    requires Behaviour(k, b) && m <= n < |b|
    requires x.token in b[m].runs || exists y :: y in b[m].seen && y.token == x.token
    ensures Tracks(b[m], x) ==> Tracks(b[n], x) || FirstWrite(b[m], b[n], x.token)
    ensures Lost(b[m], x) ==> Lost(b[n], x) || FirstWrite(b[m], b[n], x.token)
    decreases n - m
  {
    hide Behaviour, Tracks, Lost, FirstWrite, RowsStep, RunsGrow;
    if m < n {
      RowFollowedAlong(k, b, m, n - 1, x);
      StepOfRows(k, b, n);
      RowFollowed(b[n - 1], b[n], x);
      NoLateStart(k, b, m, n - 1, x.token);
      FirstWriteLater(k, b, m, n, x.token);
    }
  }

  lemma StepOfRows(k: nat, b: seq<State>, n: nat)
    requires Behaviour(k, b) && 0 < n < |b|
    ensures RowsStep(b[n - 1], b[n]) && RunsGrow(b[n - 1], b[n])
  {
    hide Next, Init, Inv, RowsStep, RunsGrow;
    InvAlong(k, b, n - 1);
    InvParts(k, b[n - 1]);
    assert Step(k, b[n - 1], b[n]);
    var e :| Next(k, b[n - 1], e) == Some(b[n]);
    MemoryHolds(k, b[n - 1], e);
    StepRows(k, b[n - 1], e);
  }

  /** A first write, made between `m` and `n - 1` or in the next step, is made between `m` and `n`. */
  lemma FirstWriteLater(k: nat, b: seq<State>, m: nat, n: nat, t: Token)
    requires Behaviour(k, b) && m < n < |b| && (t in b[n - 1].runs ==> t in b[m].runs)
    ensures FirstWrite(b[m], b[n - 1], t) || FirstWrite(b[n - 1], b[n], t) ==> FirstWrite(b[m], b[n], t)
  {
    hide Behaviour, Barred;
    LaterAlong(k, b, m, n - 1);
    LaterAlong(k, b, n - 1, n);
  }

  /** A token that has been committed, or has its run, is not given to a new run. */
  lemma {:induction false} NoLateStart(k: nat, b: seq<State>, m: nat, n: nat, t: Token)
    requires Behaviour(k, b) && m <= n < |b|
    requires t in b[m].runs || exists y :: y in b[m].seen && y.token == t
    ensures t in b[n].runs ==> t in b[m].runs
    decreases n - m
  {
    hide Behaviour, RunsGrow;
    if m < n && t !in b[m].runs {
      var y :| y in b[m].seen && y.token == t;
      NoLateStart(k, b, m, n - 1, t);
      LaterAlong(k, b, m, n - 1);
      StepOfRows(k, b, n);
      assert y in b[n - 1].seen;
    }
  }

  lemma InvParts(k: nat, s: State)
    requires Inv(k, s)
    ensures Memory(s) && Snapshot(s.db.rows) <= s.seen
  {
  }

  // ---- The rows under the instance lock -------------------------------------------------

  /** `Locked` is what the lock does: a run is started only where no live process has one underway
      for the instance. */
  lemma LockedIffStartedAlone(k: nat, s: State, e: Event)
    requires Memory(s) && Locked(s) && Next(k, s, e).Some?
    ensures Locked(Next(k, s, e).value) <==>
              (e.Start? ==> forall t :: t in s.runs && s.runs[t].inst == e.inst ==> !Underway(s, t))
  {
    RunsOnlyAdvance(k, s, e);
    MemoryHolds(k, s, e);
    RunsAppear(k, s, e);
    var s' := Next(k, s, e).value;
    hide Next, Memory, Barred;
    assert forall t :: t in s.runs && Underway(s', t) ==> Underway(s, t);
    if e.Start? {
      assert forall t :: t in s.runs ==> Underway(s', t) == Underway(s, t);
      assert e.t in s'.runs && Underway(s', e.t);
    }
  }

  lemma RunsAppear(k: nat, s: State, e: Event)
    requires Memory(s) && Next(k, s, e).Some?
    ensures var s' := Next(k, s, e).value;
            && s'.alive <= s.alive
            && (e.Start? ==>
                  && e.t !in s.runs && e.pid in s.alive && s'.alive == s.alive
                  && s'.runs == s.runs[e.t := s'.runs[e.t]] && s'.runs[e.t].inst == e.inst && s'.runs[e.t].pid == e.pid
                  && s'.runs[e.t].pc.PersistQueued?)
            && (!e.Start? ==> s'.runs.Keys == s.runs.Keys)
  {
    match e {
      case RunStep(t, c) => hide RunNext;
      case CancelStep(id, c) =>
        hide CancelTask, CancelRow;
        assert CallHolds(s, id, s.cancels[id]);
      case _ =>
    }
  }

  /** A first write is a step of its own run. */
  lemma FirstWriteIsOwn(k: nat, s: State, e: Event, t: Token)
    requires Memory(s) && Next(k, s, e).Some? && FirstWrite(s, Next(k, s, e).value, t)
    ensures e.RunStep? && e.t == t && Underway(s, t)
  {
    match e {
      case RunStep(_, c) => hide RunNext;
      case CancelStep(id, c) =>
        CancelLater(k, s, id, c);
        hide Next;
      case _ =>
    }
  }

  /** A run that has still to make its first write, and whose generation has been committed
      before it, by a cancel of its own process, has the row. */
  predicate Kept(s: State) {
    forall x :: x in s.seen && x.token in s.runs && Unwritten(s, x.token) ==>
      x.inst in s.db.rows && s.db.rows[x.inst].token == x.token
  }

  predicate Unwritten(s: State, t: Token)
    requires t in s.runs
  {
    s.runs[t].pid in s.alive && s.runs[t].pc.PersistQueued?
  }

  lemma KeptHolds(k: nat, s: State, e: Event)
    requires Inv(k, s) && Locked(s) && Kept(s) && Next(k, s, e).Some?
    ensures Kept(Next(k, s, e).value)
  {
    var s' := Next(k, s, e).value;
    InvParts(k, s);
    MemoryHolds(k, s, e);
    StepRows(k, s, e);
    RunsAppear(k, s, e);
    hide Next, Memory, ProofsOk, SlotsOk, EndsOk, Barred, Locked;
    forall x | x in s'.seen && x.token in s'.runs && Unwritten(s', x.token)
      ensures x.inst in s'.db.rows && s'.db.rows[x.inst].token == x.token
    {
      if x in s.seen {
        StaysKept(k, s, e, x);
      } else {
        assert x in Snapshot(s'.db.rows);
      }
    }
  }

  /** Only another run's first write could take the row away, and the lock excludes that one. */
  lemma StaysKept(k: nat, s: State, e: Event, x: Seen)
    requires Memory(s) && Locked(s) && Kept(s) && Next(k, s, e).Some? && RowsStep(s, Next(k, s, e).value)
    requires x in s.seen && Fits(s, x) && x.token in s.runs && Unwritten(s, x.token)
    ensures var s' := Next(k, s, e).value; x.inst in s'.db.rows && s'.db.rows[x.inst].token == x.token
  {
    var s' := Next(k, s, e).value;
    var u := s'.db.rows[x.inst].token;
    assert Underway(s, x.token);
    if u != x.token {
      assert OpenedBy(s, s', x.inst, u);
      FirstWriteIsOwn(k, s, e, u);
    }
  }

  lemma {:induction false} KeptAlong(k: nat, b: seq<State>, n: nat)
    requires Behaviour(k, b) && LockHeld(b) && n < |b|
    ensures Kept(b[n])
  {
    hide Next, Inv, Kept, Locked;
    if n == 0 {
      KeptAtStart(k, b[0]);
    } else {
      KeptAlong(k, b, n - 1);
      InvAlong(k, b, n - 1);
      assert Step(k, b[n - 1], b[n]);
      var e :| Next(k, b[n - 1], e) == Some(b[n]);
      KeptHolds(k, b[n - 1], e);
    }
  }

  lemma KeptAtStart(k: nat, s: State)
    requires Init(k, s)
    ensures Kept(s)
  {
  }

  /** A first write that meets a row of its own generation moves it along the table. */
  lemma OwnFirstWrite(r: Run, t: Token, db: Tables, k: nat, c: Choice)
    requires r.pc.PersistQueued? && RunNext(r, t, db, k, c).Some? && r.inst in db.rows && db.rows[r.inst].token == t
    ensures var rows' := RunNext(r, t, db, k, c).value.1.rows;
            && (forall j :: j in db.rows && j != r.inst ==> j in rows' && rows'[j] == db.rows[j])
            && r.inst in rows' && rows'[r.inst].token == t && Edge(db.rows[r.inst].status, rows'[r.inst].status)
  {
  }

  lemma OwnFirstWriteMoves(k: nat, s: State, e: Event, j: Instance)
    requires Memory(s) && Next(k, s, e).Some? && j in s.db.rows
    requires OpenedBy(s, Next(k, s, e).value, j, s.db.rows[j].token)
    ensures var s' := Next(k, s, e).value;
            j in s'.db.rows && Edge(s.db.rows[j].status, s'.db.rows[j].status)
  {
    var t := s.db.rows[j].token;
    FirstWriteIsOwn(k, s, e, t);
    hide RunNext, Memory, Barred;
    OwnFirstWrite(s.runs[t], t, s.db, k, e.c);
  }

  /** One step: a row that is of generation `x.token` goes along the table, a first write
      included, and under `Kept` a committed generation takes no row back. */
  lemma FollowedWhenKept(k: nat, s: State, e: Event, x: Seen)
    requires Inv(k, s) && Kept(s) && Next(k, s, e).Some? && x in s.seen
    ensures Lost(s, x) ==> Lost(Next(k, s, e).value, x)
    ensures Tracks(s, x) ==> Tracks(Next(k, s, e).value, x)
  {
    var s' := Next(k, s, e).value;
    InvParts(k, s);
    StepRows(k, s, e);
    var j := x.inst;
    if j in s.db.rows && OpenedBy(s, s', j, x.token) {
      FirstWriteIsOwn(k, s, e, x.token);
      OwnFirstWriteMoves(k, s, e, j);
    }
    hide *;
    RowFollowedByItsOwn(s, s', x);
  }

  lemma RowFollowedByItsOwn(s: State, s': State, x: Seen)
    requires RowsStep(s, s') && x.inst in s.db.rows
    requires OpenedBy(s, s', x.inst, x.token) ==>
               s.db.rows[x.inst].token == x.token && Edge(s.db.rows[x.inst].status, s'.db.rows[x.inst].status)
    ensures Lost(s, x) ==> Lost(s', x)
    ensures Tracks(s, x) ==> Tracks(s', x)
  {
    hide OpenedBy, Snapshot;
  }

  lemma {:induction false} FollowedUnderLock(k: nat, b: seq<State>, m: nat, n: nat, x: Seen)
    requires Behaviour(k, b) && LockHeld(b) && m <= n < |b| && x in b[m].seen
    ensures Lost(b[m], x) ==> Lost(b[n], x)
    ensures Tracks(b[m], x) ==> Tracks(b[n], x)
    decreases n - m
  {
    hide Next, Inv, Kept, LockHeld, Tracks, Lost, Later;
    if m < n {
      FollowedUnderLock(k, b, m, n - 1, x);
      InvAlong(k, b, n - 1);
      KeptAlong(k, b, n - 1);
      LaterAlong(k, b, m, n - 1);
      SeenStays(b[m], b[n - 1], x);
      assert Step(k, b[n - 1], b[n]);
      var e :| Next(k, b[n - 1], e) == Some(b[n]);
      FollowedWhenKept(k, b[n - 1], e, x);
    }
  }

  // ---- What the rows promise -------------------------------------------------------------

  /** Between two moments at which a row belongs to the same generation its status has gone
      along the transition table, whoever wrote it, and in particular a terminal status has not
      changed.  That rests on the instance lock, which every caller of `run` holds; without it
      the one exception is that generation's first write, made in between, which replaces
      whatever is there. */
  lemma RowsMoveAlongTheTable(k: nat, b: seq<State>, m: nat, n: nat, i: Instance)
    requires Behaviour(k, b) && m <= n < |b| && i in b[m].db.rows
    ensures i in b[n].db.rows
    ensures b[n].db.rows[i].token == b[m].db.rows[i].token
            && (LockHeld(b) || !FirstWrite(b[m], b[n], b[m].db.rows[i].token)) ==>
              && (exists path :: Walks(path, b[m].db.rows[i].status, b[n].db.rows[i].status))
              && (Terminal(b[m].db.rows[i].status) ==> b[n].db.rows[i].status == b[m].db.rows[i].status)
  {
    hide Behaviour, Inv, FirstWrite, LockHeld;
    var x := Seen(i, b[m].db.rows[i].token, b[m].db.rows[i].status);
    InvAlong(k, b, m);
    InvParts(k, b[m]);
    assert x in Snapshot(b[m].db.rows);
    RowFollowedAlong(k, b, m, n, x);
    if LockHeld(b) { FollowedUnderLock(k, b, m, n, x); }
    RowsStay(k, b, m, n, i);
    LeadsIffWalked(x.status, b[n].db.rows[i].status);
  }

  lemma {:induction false} RowsStay(k: nat, b: seq<State>, m: nat, n: nat, i: Instance)
    requires Behaviour(k, b) && m <= n < |b| && i in b[m].db.rows
    ensures i in b[n].db.rows
    decreases n - m
  {
    hide Behaviour, RunsGrow;
    if m < n {
      RowsStay(k, b, m, n - 1, i);
      StepOfRows(k, b, n);
    }
  }

  /** A generation that was committed and has lost the row never gets it back; without the
      instance lock, unless its run makes its first write after that. */
  lemma ReplacedForGood(k: nat, b: seq<State>, m: nat, n: nat, x: Seen)
    requires Behaviour(k, b) && m <= n < |b| && x in b[m].seen
    requires x.inst in b[m].db.rows && b[m].db.rows[x.inst].token != x.token
    ensures x.inst in b[n].db.rows
    ensures b[n].db.rows[x.inst].token != x.token || (!LockHeld(b) && FirstWrite(b[m], b[n], x.token))
  {
    hide Behaviour, LockHeld;
    RowFollowedAlong(k, b, m, n, x);
    if LockHeld(b) { FollowedUnderLock(k, b, m, n, x); }
    RowsStay(k, b, m, n, x.inst);
  }

  // ---- How a run leaves its row ------------------------------------------------------------

  /** When a run is over, a row that is still its own has reached a terminal status, unless the
      run was interrupted or its last write failed, or the row says cancelling and the task
      object failed: a cancel was under way when an ordinary exception ended the run. */
  lemma FinishedRowHasEnded(k: nat, b: seq<State>, n: nat, t: Token)
    requires Behaviour(k, b) && n < |b| && t in b[n].runs
    requires Finished(b[n].runs[t].pc) && !b[n].runs[t].unsaved
    ensures var (r, rows) := (b[n].runs[t], b[n].db.rows);
            && r.inst in rows
            && (rows[r.inst].token == t ==>
                  Terminal(rows[r.inst].status) || (rows[r.inst].status == Cancelling && r.mem == Failed))
  {
    InvAlong(k, b, n);
    hide Behaviour, Memory, HistoryOk, ProofsOk, SlotsOk;
    assert EndFits(b[n].runs[t], t, b[n].db.rows);
  }

  /** And that last case happens exactly when the last write meets such a row: the write is
      refused just when the row says cancelling and the task object failed, the row then stays
      as it is, and as long as it is this generation's it never says failed. */
  lemma LeftAtCancellingIff(k: nat, b: seq<State>, n: nat, t: Token, probe: set<Pid>)
    requires Behaviour(k, b) && n + 1 < |b| && t in b[n].runs && b[n].runs[t].pc.PersistFailing?
    requires Next(k, b[n], RunStep(t, Go(probe))) == Some(b[n + 1])
    requires b[n].runs[t].inst in b[n].db.rows && b[n].db.rows[b[n].runs[t].inst].token == t
    ensures var i := b[n].runs[t].inst;
            var left := b[n].db.rows[i].status == Cancelling && b[n].runs[t].mem == Failed;
            && i in b[n + 1].db.rows
            && (left <==> !Terminal(b[n + 1].db.rows[i].status))
            && (left ==> b[n + 1].db.rows == b[n].db.rows)
            && (left ==> forall m :: n < m < |b| && i in b[m].db.rows && b[m].db.rows[i].token == t ==>
                           b[m].db.rows[i].status in {Cancelling, Cancelled, CancelFailed})
  {
    InvAlong(k, b, n);
    InvAlong(k, b, n + 1);
    var r := b[n].runs[t];
    LastWriteEndsIff(r, t, b[n].db, k, probe);
    hide RunNext, Behaviour, MemOk, HistoryOk, ProofsOk, SlotsOk, EndsOk;
    if b[n].db.rows[r.inst].status == Cancelling && r.mem == Failed {
      var x := Seen(r.inst, t, Cancelling);
      InvParts(k, b[n + 1]);
      assert x in Snapshot(b[n + 1].db.rows);
      forall m: nat | n < m < |b| && r.inst in b[m].db.rows && b[m].db.rows[r.inst].token == t
        ensures b[m].db.rows[r.inst].status in {Cancelling, Cancelled, CancelFailed}
      {
        RowFollowedAlong(k, b, n + 1, m, x);
      }
    }
  }

  /** The generation a step writes for, when it writes a task row other than by reclaim. */
  function Writer(s: State, e: Event): Option<(Instance, Token)> {
    match e
    case RunStep(t, _) => if t in s.runs then Some((s.runs[t].inst, t)) else None
    case CancelStep(id, _) =>
      if id !in s.cancels then None else
      (match s.cancels[id].pc
       case PersistQueuedCancel(t) => Some((s.cancels[id].inst, t))
       case PersistCancelling(t) => Some((s.cancels[id].inst, t))
       case PersistCancelFailed(t) => Some((s.cancels[id].inst, t))
       case CancelQueuedRow(t) => Some((s.cancels[id].inst, t))
       case CancelActiveRow(t, _) => Some((s.cancels[id].inst, t))
       case CancelOrphanRow(t) => Some((s.cancels[id].inst, t))
       case FailRow(t) => Some((s.cancels[id].inst, t))
       case _ => None)
    case _ => None
  }

  /** The step makes the first write of generation `t`. */
  predicate MakesFirstWrite(s: State, e: Event) {
    e.RunStep? && e.t in s.runs && s.runs[e.t].pc.PersistQueued?
  }

  ghost predicate Committed(s: State, t: Token) {
    exists x :: x in s.seen && x.token == t
  }

  /** An attempt at a slot, which settles the rows of dead owners whatever its own row is. */
  predicate Settles(s: State, e: Event, rows': Rows) {
    e.RunStep? && e.t in s.runs && e.c.Go? && Queueing(s.runs[e.t].pc) && rows' == SettledRows(s.db.rows, e.c.probe)
  }

  /** No write by an old owner or an old canceller alters a row that a new generation has
      taken over: such a step changes no row at all, except that an attempt at a slot still
      settles the rows of dead owners.  With the instance lock held that goes for the first write
      of a generation that was committed before it as well: it never meets another's row.  The
      first write of a generation that was not is what takes the row over. */
  lemma StaleWritersChangeNothing(k: nat, b: seq<State>, n: nat, e: Event, i: Instance, t: Token)
    requires Behaviour(k, b) && n + 1 < |b| && Next(k, b[n], e) == Some(b[n + 1]) && Writer(b[n], e) == Some((i, t))
    requires i in b[n].db.rows && b[n].db.rows[i].token != t
    ensures var rows' := b[n + 1].db.rows;
            || rows' == b[n].db.rows
            || Settles(b[n], e, rows')
            || (MakesFirstWrite(b[n], e) && !(LockHeld(b) && Committed(b[n], t)))
  {
    hide Behaviour, Next, LockHeld, Settles;
    InvAlong(k, b, n);
    if !MakesFirstWrite(b[n], e) {
      StaleStepChangesNothing(k, b[n], e, i, t);
    } else if LockHeld(b) && Committed(b[n], t) {
      RunStepIsLive(k, b[n], t, e.c);
      CommittedRunHasItsRow(k, b, n, t);
    }
  }

  lemma RunStepIsLive(k: nat, s: State, t: Token, c: Choice)
    requires Next(k, s, RunStep(t, c)).Some?
    ensures t in s.runs && s.runs[t].pid in s.alive
  {
    hide RunNext;
  }

  /** Under the instance lock, a run that is about to make its first write, and whose
      generation has been committed by a cancel before it, still has the row. */
  lemma CommittedRunHasItsRow(k: nat, b: seq<State>, n: nat, t: Token)
    requires Behaviour(k, b) && LockHeld(b) && n < |b| && t in b[n].runs && Unwritten(b[n], t) && Committed(b[n], t)
    ensures b[n].runs[t].inst in b[n].db.rows && b[n].db.rows[b[n].runs[t].inst].token == t
  {
    KeptAlong(k, b, n);
    InvAlong(k, b, n);
    hide Behaviour, LockHeld, Memory, ProofsOk, SlotsOk, EndsOk, Barred;
    var x :| x in b[n].seen && x.token == t;
    assert Fits(b[n], x);
  }

  /** A step that writes for a generation whose row is another's, its first write apart. */
  lemma StaleStepChangesNothing(k: nat, s: State, e: Event, i: Instance, t: Token)
    requires Inv(k, s) && Next(k, s, e).Some? && Writer(s, e) == Some((i, t)) && !MakesFirstWrite(s, e)
    requires i in s.db.rows && s.db.rows[i].token != t
    ensures Next(k, s, e).value.db.rows == s.db.rows || Settles(s, e, Next(k, s, e).value.db.rows)
  {
    match e {
      case RunStep(_, c) => StaleRun(s.runs[t], t, s.db, k, c);
      case CancelStep(id, c) => StaleCall(k, s, id, c, i, t);
    }
  }

  lemma StaleRun(r: Run, t: Token, db: Tables, k: nat, c: Choice)
    requires RunNext(r, t, db, k, c).Some? && !r.pc.PersistQueued?
    requires r.inst in db.rows && db.rows[r.inst].token != t
    ensures var rows' := RunNext(r, t, db, k, c).value.1.rows;
            rows' == db.rows || (c.Go? && Queueing(r.pc) && rows' == SettledRows(db.rows, c.probe))
  {
    hide Edge, SettledRows, LiveSlots, Overlay, Changed, Release, ReleaseInstance, CancelRequested;
  }

  lemma StaleCall(k: nat, s: State, id: nat, c: Choice, i: Instance, t: Token)
    requires Memory(s) && Next(k, s, CancelStep(id, c)).Some? && Writer(s, CancelStep(id, c)) == Some((i, t))
    requires i in s.db.rows && s.db.rows[i].token != t
    ensures Next(k, s, CancelStep(id, c)).value.db.rows == s.db.rows
  {
    hide Edge, Overlay, Changed;
    assert CallHolds(s, id, s.cancels[id]);
  }
}
