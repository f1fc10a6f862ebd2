/**
The cross-process build gate: one object per process over one shared database, with
the statements of each transaction written out.  Every method is proved to have the
effect of the matching function of `BuildTasks`, so what is proved about those
functions holds of the gate.
*/
module BuildGate {
  import opened Wrappers
  import opened BuildTasks

  /** The database file, shared by the gates of all processes. */
  class LocksDb {
    var slots: Slots
    var rows: Rows

    constructor ()
      ensures slots == map[] && rows == map[]
    {
      slots, rows := map[], map[];
    }

    function Tables(): Tables
      reads this
    {
      BuildTasks.Tables(slots, rows)
    }
  }

  /** What the database does to a call: nothing; a lock conflict (sqlite3.OperationalError)
      already at BEGIN IMMEDIATE, where an immediate transaction meets it; the same error at a
      later statement; or any other error there. */
  datatype Fault = NoFault | BusyAtBegin | BusyLater | Broken

  /** The identity triple a kill is checked against. */
  datatype Kill = Kill(pid: nat, pgid: Option<nat>, identity: string)

  predicate HasWorker(row: TaskRow) {
    row.worker.pid.Some?
  }

  function KillOf(row: TaskRow): Kill
    requires HasWorker(row)
  {
    Kill(row.worker.pid.value, row.worker.pgid,
         if row.worker.identity.Some? then row.worker.identity.value else "")
  }

  /** `kills` holds one kill for each orphaned row with a worker among `visited`, no more. */
  ghost predicate Collects(rows: Rows, probe: set<Pid>, visited: set<Instance>, order: seq<Instance>, kills: seq<Kill>) {
    && |order| == |kills|
    && (forall a, b :: 0 <= a < b < |order| ==> order[a] != order[b])
    && (forall i :: i in order <==> i in visited && i in rows && Orphaned(rows[i], probe) && HasWorker(rows[i]))
    && forall a :: 0 <= a < |order| ==> order[a] in rows && HasWorker(rows[order[a]]) && kills[a] == KillOf(rows[order[a]])
  }

  /** The kills that a reclaim owes, written out: one for each unfinished row of a dead owner that
      has a worker, in some order, and no other. */
  ghost predicate KillsOwed(rows: Rows, probe: set<Pid>, order: seq<Instance>, kills: seq<Kill>) {
    && |order| == |kills|
    && (forall a, b :: 0 <= a < b < |order| ==> order[a] != order[b])
    && (forall i :: i in order <==>
          && i in rows && rows[i].status in {Queued, Building, Cancelling} && rows[i].owner !in probe
          && rows[i].worker.pid.Some?)
    && forall a :: 0 <= a < |order| ==>
         && order[a] in rows
         && Some(kills[a].pid) == rows[order[a]].worker.pid && kills[a].pgid == rows[order[a]].worker.pgid
         && kills[a].identity == match rows[order[a]].worker.identity case Some(s) => s case None => ""
  }

  lemma CollectedAreOwed(rows: Rows, probe: set<Pid>, order: seq<Instance>, kills: seq<Kill>)
    requires Collects(rows, probe, rows.Keys, order, kills)
    ensures KillsOwed(rows, probe, order, kills)
  {
    forall i | i in rows
      ensures Orphaned(rows[i], probe) <==> rows[i].status in {Queued, Building, Cancelling} && rows[i].owner !in probe
    {
      OrphanedIs(rows[i], probe);
    }
    hide Orphaned;
  }

  class Gate {
    const db: LocksDb
    const pid: Pid
    const concurrency: nat
    var pendingKills: seq<Kill>
    var issued: seq<Kill>   // the kill calls made so far; what they do is not modelled

    constructor (db: LocksDb, pid: Pid, concurrency: int)
      ensures this.db == db && this.pid == pid
      ensures this.concurrency >= 1 && (concurrency >= 1 ==> this.concurrency == concurrency)
      ensures pendingKills == [] && issued == []
    {
      this.db, this.pid := db, pid;
      this.concurrency := if concurrency > 1 then concurrency else 1;
      pendingKills, issued := [], [];
    }

    /** The first half of _reclaim_dead: the slots of dead owners go. */
    method ReclaimSlots(probe: set<Pid>)
      modifies db`slots
      ensures db.slots == LiveSlots(old(db.slots), probe)
    {
      var todo := db.slots.Keys;
      while todo != {}
        invariant todo <= db.slots.Keys <= old(db.slots).Keys
        invariant forall n :: n in db.slots ==> db.slots[n] == old(db.slots)[n]
        invariant forall n :: n in old(db.slots) && n !in todo ==>
                    (n in db.slots <==> old(db.slots)[n].pid in probe)
        decreases todo
      {
        var n :| n in todo;
        todo := todo - {n};
        if db.slots[n].pid !in probe {
          db.slots := db.slots - {n};
        }
      }
    }

    /** The second half: unfinished rows of dead owners become cancelled, and their
        workers' kills are collected. */
    method SettleOrphans(probe: set<Pid>) returns (ghost order: seq<Instance>, kills: seq<Kill>)
      modifies db`rows
      ensures db.rows == SettledRows(old(db.rows), probe)
      ensures RowsSettled(old(db.rows), db.rows, probe)
      ensures KillsOwed(old(db.rows), probe, order, kills)
    {
      order, kills := [], [];
      var rows := db.rows;
      var todo := set i | i in rows && !Terminal(rows[i].status);
      while todo != {}
        invariant todo <= rows.Keys == db.rows.Keys
        invariant forall i :: i in rows && !Terminal(rows[i].status) && i !in todo && Orphaned(rows[i], probe) ==>
                    db.rows[i] == Abandon(rows[i])
        invariant forall i :: i in rows && (i in todo || !Orphaned(rows[i], probe)) ==> db.rows[i] == rows[i]
        invariant Collects(rows, probe, rows.Keys - todo, order, kills)
        decreases todo
      {
        var i :| i in todo;
        if rows[i].owner !in probe {
          if rows[i].worker.pid.Some? {
            CollectOne(rows, probe, rows.Keys - todo, order, kills, i);
            order, kills := order + [i], kills + [KillOf(rows[i])];
          }
          db.rows := db.rows[i := Abandon(rows[i])];
        }
        assert rows.Keys - (todo - {i}) == rows.Keys - todo + {i};
        todo := todo - {i};
      }
      assert rows.Keys - todo == rows.Keys;
      CollectedAreOwed(rows, probe, order, kills);
      SettledIsWrittenOut(rows, probe);
    }

    static lemma CollectOne(rows: Rows, probe: set<Pid>, visited: set<Instance>, order: seq<Instance>, kills: seq<Kill>,
                            i: Instance)
      requires Collects(rows, probe, visited, order, kills)
      requires i in rows && i !in visited && Orphaned(rows[i], probe) && HasWorker(rows[i])
      ensures Collects(rows, probe, visited + {i}, order + [i], kills + [KillOf(rows[i])])
    {
      var more := order + [i];
      forall j
        ensures j in more <==> j in visited + {i} && j in rows && Orphaned(rows[j], probe) && HasWorker(rows[j])
      {
        assert j in more <==> j in order || j == i;
      }
      assert forall a :: 0 <= a < |order| ==> more[a] == order[a] && order[a] in order;
    }

    /** Runs inside the write transaction, so kills are only collected here: killing takes
        seconds. */
    method ReclaimDead(probe: set<Pid>)
      modifies db, this`pendingKills
      ensures db.slots == LiveSlots(old(db.slots), probe)
      ensures db.rows == SettledRows(old(db.rows), probe)
      ensures RowsSettled(old(db.rows), db.rows, probe)
      ensures exists order, kills ::
                && KillsOwed(old(db.rows), probe, order, kills)
                && pendingKills == old(pendingKills) + kills
    {
      ReclaimSlots(probe);
      ghost var order;
      var kills;
      order, kills := SettleOrphans(probe);
      pendingKills := pendingKills + kills;
    }

    /** Issues the collected kills, outside any transaction. */
    method DrainPendingKills()
      modifies this
      ensures pendingKills == [] && issued == old(issued) + old(pendingKills)
    {
      while pendingKills != []
        invariant issued + pendingKills == old(issued) + old(pendingKills)
        decreases |pendingKills|
      {
        issued := issued + [pendingKills[0]];
        pendingKills := pendingKills[1..];
      }
    }

    /** One attempt at a slot.  Only a conflict at a later statement reads as "no slot": BEGIN
        stands before the `try`, so a conflict there is raised, which makes `run` mark its task
        failed, although the handler below is there to prevent just that.  A full gate and any
        error leave the tables as they were. */
    method TryAcquire(i: Instance, probe: set<Pid>, fault: Fault) returns (r: Result<Option<nat>, Fault>)
      modifies db, this
      ensures fault == NoFault ==>
                (db.Tables(), r) == (var (t, slot) := BuildTasks.TryAcquire(old(db.Tables()), probe, concurrency, i, pid);
                                     (t, Ok(slot)))
      ensures fault != NoFault ==> db.Tables() == old(db.Tables())
      ensures r == Err(fault) <==> fault in {BusyAtBegin, Broken}
      ensures fault == BusyLater ==> r == Ok(None)
      ensures fault == BusyAtBegin ==> pendingKills == old(pendingKills) && issued == old(issued)
      ensures fault != BusyAtBegin && (fault != NoFault || r != Ok(None)) ==> pendingKills == []
      // A grant settles the rows of dead owners and issues the kills owed for them; a full gate
      // keeps those kills for the next attempt.
      ensures r.Ok? && r.value.Some? ==> RowsSettled(old(db.rows), db.rows, probe)
      ensures fault == NoFault ==>
                exists order, kills ::
                  && KillsOwed(old(db.rows), probe, order, kills)
                  && if r == Ok(None) then pendingKills == old(pendingKills) + kills && issued == old(issued)
                     else issued == old(issued) + old(pendingKills) + kills
    {
      if fault == BusyAtBegin {
        return Err(fault);
      }
      var before := db.Tables();
      ReclaimDead(probe);
      ghost var order, kills :| KillsOwed(before.rows, probe, order, kills) && pendingKills == old(pendingKills) + kills;
      if fault != NoFault {
        db.slots, db.rows := before.slots, before.rows;
        DrainPendingKills();
        return if fault == BusyLater then Ok(None) else Err(fault);
      }
      var slot := 0;
      while slot < concurrency && slot in db.slots
        invariant slot <= concurrency
        invariant FirstFree(db.slots, 0, concurrency) == FirstFree(db.slots, slot, concurrency)
      {
        slot := slot + 1;
      }
      if slot == concurrency {
        db.slots, db.rows := before.slots, before.rows;
        return Ok(None);
      }
      db.slots := db.slots[slot := SlotRow(i, pid)];
      DrainPendingKills();
      assert issued == old(issued) + old(pendingKills) + kills;
      r := Ok(Some(slot));
    }

    method Release(slot: Option<nat>)
      modifies db
      ensures db.rows == old(db.rows)
      ensures db.slots == if slot.None? then old(db.slots) else BuildTasks.Release(old(db.slots), slot.value, pid)
    {
      if slot.Some? && slot.value in db.slots && db.slots[slot.value].pid == pid {
        db.slots := db.slots - {slot.value};
      }
    }

    method ReleaseInstanceSlots(i: Instance)
      modifies db
      ensures db.rows == old(db.rows)
      ensures db.slots == ReleaseInstance(old(db.slots), i, pid)
    {
      var todo := db.slots.Keys;
      while todo != {}
        invariant todo <= db.slots.Keys <= old(db.slots).Keys
        invariant forall n :: n in db.slots ==> db.slots[n] == old(db.slots)[n]
        invariant forall n :: n in old(db.slots) && n !in todo ==>
                    (n in db.slots <==> old(db.slots)[n] != SlotRow(i, pid))
        invariant db.rows == old(db.rows)
        decreases todo
      {
        var n :| n in todo;
        todo := todo - {n};
        if db.slots[n].instance == i && db.slots[n].pid == pid {
          db.slots := db.slots - {n};
        }
      }
    }

    /** upsert_build_task; an error at BEGIN, or at the write, rolls back and is raised. */
    method UpsertBuildTask(i: Instance, row: TaskRow, replaceGeneration: bool, fault: Fault)
      returns (r: Result<bool, Fault>)
      modifies db
      ensures db.slots == old(db.slots)
      ensures var (rows, ok) := Upsert(old(db.rows), i, row, replaceGeneration);
              if fault == BusyAtBegin || (ok && fault != NoFault) then db.rows == old(db.rows) && r == Err(fault)
              else db.rows == rows && r == Ok(ok)
    {
      if fault == BusyAtBegin {
        return Err(fault);
      }
      var before := db.rows;
      if i !in db.rows {
        db.rows := db.rows[i := row];
      } else if db.rows[i].token != row.token {
        if !replaceGeneration {
          return Ok(false);
        }
        db.rows := db.rows[i := row];
      } else {
        if row.status !in Allowed(db.rows[i].status) {
          return Ok(false);
        }
        var current := db.rows[i];
        current := current.(status := row.status, owner := row.owner);
        if row.worker.pid.Some? { current := current.(worker := current.worker.(pid := row.worker.pid)); }
        if row.worker.pgid.Some? { current := current.(worker := current.worker.(pgid := row.worker.pgid)); }
        if row.worker.identity.Some? { current := current.(worker := current.worker.(identity := row.worker.identity)); }
        if row.cancelRequested { current := current.(cancelRequested := true); }
        db.rows := db.rows[i := current];
      }
      if fault != NoFault {
        db.rows := before;
        return Err(fault);
      }
      r := Ok(true);
    }

    /** update_build_task. */
    method UpdateBuildTask(i: Instance, token: Token, c: Change) returns (ok: bool)
      modifies db
      ensures db.slots == old(db.slots)
      ensures (db.rows, ok) == Update(old(db.rows), i, token, c)
    {
      if i !in db.rows || db.rows[i].token != token {
        return false;
      }
      var data := db.rows[i];
      if c.status.Some? {
        if c.status.value !in Allowed(data.status) {
          return false;
        }
        data := data.(status := c.status.value);
      }
      if c.clearWorker {
        data := data.(worker := NO_WORKER);
      } else {
        if c.worker.pid.Some? { data := data.(worker := data.worker.(pid := c.worker.pid)); }
        if c.worker.pgid.Some? { data := data.(worker := data.worker.(pgid := c.worker.pgid)); }
        if c.worker.identity.Some? { data := data.(worker := data.worker.(identity := c.worker.identity)); }
      }
      if c.cancelRequested { data := data.(cancelRequested := true); }
      db.rows := db.rows[i := data];
      ok := true;
    }

    method IsCancelRequested(i: Instance, token: Token) returns (b: bool)
      ensures b <==> CancelRequested(db.rows, i, token)
    {
      if i !in db.rows || db.rows[i].token != token {
        return false;
      }
      b := db.rows[i].status == Cancelling || db.rows[i].status == Cancelled || db.rows[i].cancelRequested;
    }
  }
}
