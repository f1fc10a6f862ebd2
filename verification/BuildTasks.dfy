/**
The two tables of the build-locks database as values, and what each of its
transactions does to them: the status table, slot allocation with reclaim of dead
owners, and the two ways a task row is written.

A transaction is atomic, so each is a function from tables to tables.  The
methods of `BuildGate` are proved to compute these functions, and the protocol of
`BuildProtocol` takes them as its steps.
*/
module BuildTasks {
  import opened Wrappers

  type Pid = nat
  type Token = nat       // a uuid4 hex string, only ever compared
  type Instance = nat    // an instance id, only ever compared

  datatype Status = Queued | Building | Cancelling | Success | Failed | Cancelled | CancelFailed

  /** The statuses a row may be given next. */
  function Allowed(s: Status): set<Status> {
    match s
    case Queued => {Queued, Building, Cancelled, Failed}
    case Building => {Building, Cancelling, Cancelled, Success, Failed}
    case Cancelling => {Cancelling, Cancelled, CancelFailed}
    case _ => {s}
  }

  predicate Edge(a: Status, b: Status) {
    b in Allowed(a)
  }

  predicate Terminal(s: Status) {
    s in {Success, Failed, Cancelled, CancelFailed}
  }

  /** `path` walks the table from `a` to `b`. */
  predicate Walks(path: seq<Status>, a: Status, b: Status) {
    && |path| > 0 && path[0] == a && path[|path| - 1] == b
    && forall k :: 0 <= k < |path| - 1 ==> Edge(path[k], path[k + 1])
  }

  /** The closure of the table, spelled out. */
  predicate Leads(a: Status, b: Status) {
    || a == b
    || a == Queued
    || (a == Building && b != Queued)
    || (a == Cancelling && b in {Cancelled, CancelFailed})
  }

  lemma {:induction false} LeadsWhenWalked(path: seq<Status>, a: Status, b: Status)
    requires Walks(path, a, b)
    ensures Leads(a, b)
    decreases |path|
  {
    if |path| > 1 {
      assert Edge(path[0], path[1]);
      LeadsWhenWalked(path[1..], path[1], b);
    }
  }

  /** `Leads` is exactly "there is a walk through the transition table". */
  lemma LeadsIffWalked(a: Status, b: Status)
    ensures Leads(a, b) <==> exists path :: Walks(path, a, b)
  {
    if path :| Walks(path, a, b) {
      LeadsWhenWalked(path, a, b);
    }
    if Leads(a, b) {
      var path :=
        if a == b then [a]
        else if Edge(a, b) then [a, b]
        else if a == Queued && b == CancelFailed then [a, Building, Cancelling, b]
        else if a == Queued then [a, Building, b]
        else [a, Cancelling, b];
      assert Walks(path, a, b);
    }
  }

  // ---- Rows -------------------------------------------------------------------

  datatype Worker = Worker(pid: Option<nat>, pgid: Option<nat>, identity: Option<string>)

  const NO_WORKER := Worker(None, None, None)

  function Coalesce<T>(a: Option<T>, b: Option<T>): Option<T> {
    if a.Some? then a else b
  }

  /** `cancelRequested` stands for "cancel_requested_at is not null". */
  datatype TaskRow = TaskRow(token: Token, status: Status, owner: Pid, worker: Worker, cancelRequested: bool)

  datatype SlotRow = SlotRow(instance: Instance, pid: Pid)

  type Slots = map<nat, SlotRow>
  type Rows = map<Instance, TaskRow>

  datatype Tables = Tables(slots: Slots, rows: Rows)

  /** A row with the columns of `row`, keeping `was`'s where `row` has none. */
  function Overlay(was: TaskRow, row: TaskRow): TaskRow {
    TaskRow(row.token, row.status, row.owner,
            Worker(Coalesce(row.worker.pid, was.worker.pid),
                   Coalesce(row.worker.pgid, was.worker.pgid),
                   Coalesce(row.worker.identity, was.worker.identity)),
            row.cancelRequested || was.cancelRequested)
  }

  /** upsert_build_task: insert, replace another generation, or move along the table. */
  function Upsert(rows: Rows, i: Instance, row: TaskRow, replace: bool): (Rows, bool) {
    if i !in rows then (rows[i := row], true)
    else if rows[i].token != row.token then
      if replace then (rows[i := row], true) else (rows, false)
    else if !Edge(rows[i].status, row.status) then (rows, false)
    else (rows[i := Overlay(rows[i], row)], true)
  }

  /** The columns update_build_task is asked to change. */
  datatype Change = Change(status: Option<Status>, worker: Worker, cancelRequested: bool, clearWorker: bool)

  function Changed(row: TaskRow, c: Change): TaskRow {
    TaskRow(row.token, if c.status.Some? then c.status.value else row.status, row.owner,
            if c.clearWorker then NO_WORKER
            else Worker(Coalesce(c.worker.pid, row.worker.pid),
                        Coalesce(c.worker.pgid, row.worker.pgid),
                        Coalesce(c.worker.identity, row.worker.identity)),
            c.cancelRequested || row.cancelRequested)
  }

  /** update_build_task: only the generation it names, only along the table. */
  function Update(rows: Rows, i: Instance, token: Token, c: Change): (Rows, bool) {
    if i !in rows || rows[i].token != token then (rows, false)
    else if c.status.Some? && !Edge(rows[i].status, c.status.value) then (rows, false)
    else (rows[i := Changed(rows[i], c)], true)
  }

  /** is_cancel_requested: the row of this generation asks for, or already is, a cancel. */
  predicate CancelRequested(rows: Rows, i: Instance, token: Token) {
    && i in rows && rows[i].token == token
    && (rows[i].status in {Cancelling, Cancelled} || rows[i].cancelRequested)
  }

  // ---- Slots ------------------------------------------------------------------

  /** Slots whose owner the probe calls dead are deleted. */
  function LiveSlots(slots: Slots, probe: set<Pid>): Slots {
    map n | n in slots && slots[n].pid in probe :: slots[n]
  }

  predicate Orphaned(row: TaskRow, probe: set<Pid>) {
    !Terminal(row.status) && row.owner !in probe
  }

  function Abandon(row: TaskRow): TaskRow {
    row.(status := Cancelled, worker := NO_WORKER, cancelRequested := true)
  }

  /** Unfinished rows whose owner the probe calls dead become cancelled. */
  function SettledRows(rows: Rows, probe: set<Pid>): Rows {
    map i | i in rows :: if Orphaned(rows[i], probe) then Abandon(rows[i]) else rows[i]
  }

  /** The least number from `n` on, below `k`, that is not taken. */
  function FirstFree(slots: Slots, n: nat, k: nat): (r: Option<nat>)
    ensures r.Some? ==> n <= r.value < k && r.value !in slots && forall m :: n <= m < r.value ==> m in slots
    ensures r.None? ==> forall m :: n <= m < k ==> m in slots
    decreases k - n
  {
    if n >= k then None
    else if n !in slots then Some(n)
    else FirstFree(slots, n + 1, k)
  }

  /** One _try_acquire transaction; a full gate rolls back, reclaim included. */
  function TryAcquire(t: Tables, probe: set<Pid>, k: nat, i: Instance, pid: Pid): (Tables, Option<nat>) {
    var live := LiveSlots(t.slots, probe);
    var slot := FirstFree(live, 0, k);
    match slot
    case None => (t, None)
    case Some(n) => (Tables(live[n := SlotRow(i, pid)], SettledRows(t.rows, probe)), slot)
  }

  function Release(slots: Slots, n: nat, pid: Pid): Slots {
    if n in slots && slots[n].pid == pid then slots - {n} else slots
  }

  function ReleaseInstance(slots: Slots, i: Instance, pid: Pid): Slots {
    map n | n in slots && slots[n] != SlotRow(i, pid) :: slots[n]
  }

  /** A release takes away a slot row of the process itself and no other; a release of an instance
      all that the process has for it. */
  lemma ReleaseIs(slots: Slots, n: nat, i: Instance, pid: Pid, m: nat)
    ensures m in Release(slots, n, pid) <==> m in slots && !(m == n && slots[m].pid == pid)
    ensures m in ReleaseInstance(slots, i, pid) <==> m in slots && !(slots[m].instance == i && slots[m].pid == pid)
    ensures m in Release(slots, n, pid) ==> Release(slots, n, pid)[m] == slots[m]
    ensures m in ReleaseInstance(slots, i, pid) ==> ReleaseInstance(slots, i, pid)[m] == slots[m]
  {
  }

  // ---- What the transactions promise -------------------------------------------

  /** The gate turns a caller away exactly when all K slots belong to owners the probe
      calls alive, and then it changes nothing. */
  lemma TurnedAwayIffFull(t: Tables, probe: set<Pid>, k: nat, i: Instance, pid: Pid)
    ensures TryAcquire(t, probe, k, i, pid).1.None?
       <==> forall n :: 0 <= n < k ==> n in t.slots && t.slots[n].pid in probe
    ensures TryAcquire(t, probe, k, i, pid).1.None? ==> TryAcquire(t, probe, k, i, pid).0 == t
  {
    var live := LiveSlots(t.slots, probe);
    assert forall n: nat :: n in live <==> n in t.slots && t.slots[n].pid in probe;
  }

  /** A granted slot was free of live owners, is in range, and is the only live slot
      that changed hands. */
  lemma GrantedSlotWasFree(t: Tables, probe: set<Pid>, k: nat, i: Instance, pid: Pid)
    requires TryAcquire(t, probe, k, i, pid).1.Some?
    ensures var (t', slot) := TryAcquire(t, probe, k, i, pid);
            && slot.value < k
            && (slot.value in t.slots ==> t.slots[slot.value].pid !in probe)
            && t'.slots.Keys == (set n | n in t.slots && t.slots[n].pid in probe) + {slot.value}
            && t'.slots[slot.value] == SlotRow(i, pid)
            && forall n :: n in t'.slots && n != slot.value ==> t'.slots[n] == t.slots[n]
  {
  }

  /** What a reclaim does to the rows, written out: an unfinished row of a dead owner becomes
      cancelled, asks for the cancel and forgets its worker; every other row is as it was. */
  predicate RowsSettled(rows: Rows, rows': Rows, probe: set<Pid>) {
    && rows'.Keys == rows.Keys
    && forall i :: i in rows ==>
         if rows[i].status in {Queued, Building, Cancelling} && rows[i].owner !in probe
         then rows'[i] == TaskRow(rows[i].token, Cancelled, rows[i].owner, Worker(None, None, None), true)
         else rows'[i] == rows[i]
  }

  lemma SettledIsWrittenOut(rows: Rows, probe: set<Pid>)
    ensures RowsSettled(rows, SettledRows(rows, probe), probe)
  {
    forall i | i in rows
      ensures Orphaned(rows[i], probe) <==> rows[i].status in {Queued, Building, Cancelling} && rows[i].owner !in probe
    {
      OrphanedIs(rows[i], probe);
    }
    hide Orphaned;
  }

  /** The unfinished statuses are these three. */
  lemma OrphanedIs(row: TaskRow, probe: set<Pid>)
    ensures Orphaned(row, probe) <==> row.status in {Queued, Building, Cancelling} && row.owner !in probe
  {
    match row.status case Queued => case _ =>
  }

  /** A granted slot settles the rows of dead owners, whatever they were doing, and a refusal
      leaves them for the next attempt. */
  lemma GrantSettlesDeadOwners(t: Tables, probe: set<Pid>, k: nat, i: Instance, pid: Pid)
    ensures var (t', slot) := TryAcquire(t, probe, k, i, pid);
            if slot.Some? then RowsSettled(t.rows, t'.rows, probe) else t'.rows == t.rows
  {
    SettledIsWrittenOut(t.rows, probe);
    hide SettledRows, LiveSlots, FirstFree, RowsSettled;
  }

  /** What one write may do to a row: nothing, a new generation, or one table edge. */
  predicate RowStep(rows: Rows, rows': Rows, i: Instance) {
    && (i in rows ==> i in rows')
    && (i in rows && i in rows' && rows[i].token == rows'[i].token ==>
          Edge(rows[i].status, rows'[i].status) || rows[i].status == rows'[i].status)
  }

  lemma EveryWriteStepsAlongTheTable(t: Tables, i: Instance, row: TaskRow, replace: bool,
                                     token: Token, c: Change, probe: set<Pid>, j: Instance)
    ensures RowStep(t.rows, Upsert(t.rows, i, row, replace).0, j)
    ensures RowStep(t.rows, Update(t.rows, i, token, c).0, j)
    ensures RowStep(t.rows, SettledRows(t.rows, probe), j)
  {
  }

  /** The edges of the status table, listed. */
  const EDGES := {
    (Queued, Queued), (Queued, Building), (Queued, Cancelled), (Queued, Failed),
    (Building, Building), (Building, Cancelling), (Building, Cancelled), (Building, Success), (Building, Failed),
    (Cancelling, Cancelling), (Cancelling, Cancelled), (Cancelling, CancelFailed),
    (Success, Success), (Failed, Failed), (Cancelled, Cancelled), (CancelFailed, CancelFailed) }

  lemma EdgesListed(a: Status, b: Status)
    ensures Edge(a, b) <==> (a, b) in EDGES
  {
    match a case Queued => case _ =>
  }

  /** A column that is written when there is something to write, and kept otherwise. */
  predicate Kept<T(==)>(was: Option<T>, written: Option<T>, now: Option<T>) {
    (written != None ==> now == written) && (written == None ==> now == was)
  }

  predicate WorkerKept(was: Worker, written: Worker, now: Worker) {
    && Kept(was.pid, written.pid, now.pid) && Kept(was.pgid, written.pgid, now.pgid)
    && Kept(was.identity, written.identity, now.identity)
  }

  predicate OnlyRow(rows: Rows, rows': Rows, i: Instance) {
    rows'.Keys == rows.Keys + {i} && forall j :: j in rows && j != i ==> rows'[j] == rows[j]
  }

  /** An upsert is accepted for a new row, to replace another generation when that is asked for,
      and along an edge; it then writes the whole row, except that for the same generation the
      worker columns it has nothing for are kept, and a cancel once asked for is not taken back. */
  lemma UpsertIs(rows: Rows, i: Instance, row: TaskRow, replace: bool)
    ensures var (rows', accepted) := Upsert(rows, i, row, replace);
            && (accepted <==> i in rows ==>
                  if rows[i].token == row.token then (rows[i].status, row.status) in EDGES else replace)
            && (!accepted ==> rows' == rows)
            && (accepted ==>
                  && OnlyRow(rows, rows', i)
                  && rows'[i].token == row.token && rows'[i].status == row.status && rows'[i].owner == row.owner
                  && if i in rows && rows[i].token == row.token
                     then && WorkerKept(rows[i].worker, row.worker, rows'[i].worker)
                          && (rows'[i].cancelRequested <==> rows[i].cancelRequested || row.cancelRequested)
                     else rows'[i] == row)
  {
    if i in rows { EdgesListed(rows[i].status, row.status); }
    hide Edge, EDGES;
  }

  /** An update is accepted for the generation it names, when it asks for no status or for one
      along an edge; it never changes the generation or the owner, and a cancel once asked for is
      not taken back. */
  lemma UpdateIs(rows: Rows, i: Instance, token: Token, c: Change)
    ensures var (rows', accepted) := Update(rows, i, token, c);
            && (accepted <==>
                  && i in rows && rows[i].token == token
                  && (c.status != None ==> (rows[i].status, c.status.value) in EDGES))
            && (!accepted ==> rows' == rows)
            && (accepted ==>
                  && OnlyRow(rows, rows', i)
                  && rows'[i].token == token && rows'[i].owner == rows[i].owner
                  && (if c.status == None then rows'[i].status == rows[i].status else rows'[i].status == c.status.value)
                  && (if c.clearWorker then rows'[i].worker == Worker(None, None, None)
                      else WorkerKept(rows[i].worker, c.worker, rows'[i].worker))
                  && (rows'[i].cancelRequested <==> rows[i].cancelRequested || c.cancelRequested))
  {
    if i in rows && c.status.Some? { EdgesListed(rows[i].status, c.status.value); }
    hide Edge, EDGES;
  }

  /** A generation that has been replaced can no longer write: both writes are refused. */
  lemma ReplacedGenerationIsRefused(rows: Rows, i: Instance, row: TaskRow, c: Change)
    requires i in rows && rows[i].token != row.token
    ensures Upsert(rows, i, row, false) == (rows, false)
    ensures Update(rows, i, row.token, c) == (rows, false)
  {
  }
}
