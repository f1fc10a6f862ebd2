/**
The daemon's self-healing: `reconcile` visits the instances that should be running and
restarts the ones that are not, holding each back after a failure.

A visit is one row of one pass together with everything the code meets there: the clock
readings, what observation and the second look at the row give, whether the restart works.
*/
module Reconcile {
  import opened Wrappers

  type Id = nat

  datatype Status = Pending | Queued | Building | Running | Failed | Down   // Down: stopped, gateway_down, config_invalid

  datatype Kind = Container | SharedStatic | Process

  /** A row of the registry; `updated` is updated_at as a time, when it can be read. */
  datatype Row = Row(id: Id, wanted: bool, kind: Kind, status: Status, updated: Option<real>)

  /** Decided once for a pass. */
  datatype Setting = Setting(containersBlocked: bool, gatewayOff: bool)

  datatype Meets = Meets(
    circuitOpen: bool,             // the persisted circuit breaker holds the instance back
    now: real,                     // monotonic(), compared with the deadline
    activeBuild: Option<bool>,     // None: the registry cannot be read
    observed: Option<Status>,      // None: observing raises
    rowRead: bool,                 // the row can be read again after observing
    observationBlocks: bool,       // that row names an observation error
    wall: real,                    // time.time(), compared with updated_at
    seededAt: real,                // monotonic(), when a fresh failure is noted
    stillWanted: Option<bool>,     // the row read again just before acting; None: reading raises
    manualBuild: Option<bool>,     // None: asking raises
    rolledBack: bool,              // the last good image could be brought back
    restarted: bool,               // do_restart returned
    failedAt: real)                // monotonic(), when a failure is noted

  datatype Visit = Visit(row: Row, meets: Meets, setting: Setting)

  /** An entry of _reconcile_failures: consecutive failures, and the deadline. */
  datatype Record = Record(count: nat, until: real)

  type Records = map<Id, Record>

  const BASE := 60.0
  const LIMIT := 3600.0

  /** The first power of two that is no float. */
  const FIRST_TOO_LARGE: nat := 1024

  function Doublings(n: nat): real {
    if n == 0 then 1.0 else 2.0 * Doublings(n - 1)
  }

  /** min(BASE * 2 ** (failures - 1), LIMIT).  The power is an integer that is made a float
      to be multiplied; from 2 ** 1024 on that raises OverflowError, which is None here. */
  function Delay(failures: nat): Option<real>
    requires failures >= 1
  {
    if failures - 1 >= FIRST_TOO_LARGE then None else
    var d := BASE * Doublings(failures - 1);
    Some(if d <= LIMIT then d else LIMIT)
  }

  datatype Verdict =
    | Skipped        // not this pass
    | Aborted        // the registry could not be read; the pass ends
    | Up             // observed running
    | Seeded         // freshly failed: wait one backoff first
    | RolledBack     // the last good image is back
    | Restarted
    | RestartFailed
    | CheckFailed    // a last check before restarting raised

  predicate Acts(v: Verdict) {
    v in {RolledBack, Restarted, RestartFailed}
  }

  predicate Fails(v: Verdict) {
    v in {RestartFailed, CheckFailed}
  }

  /** The status acted on; None when observing says to leave the instance alone. */
  function ActualStatus(row: Row, meets: Meets): Option<Status> {
    if row.kind.Container? || row.status.Running? then meets.observed
    else if row.status.Building? then Some(if meets.observed.Some? then meets.observed.value else Building)
    else Some(row.status)
  }

  predicate FreshlyFailed(row: Row, meets: Meets) {
    && row.status.Failed?
    && row.updated.Some? && row.updated.value != 0.0 && meets.wall - row.updated.value < BASE
  }

  function Decide(record: Option<Record>, visit: Visit): Verdict {
    var (row, meets, setting) := (visit.row, visit.meets, visit.setting);
    if !row.wanted then Skipped
    else if row.kind.Container? && meets.circuitOpen then Skipped
    else if record.Some? && meets.now < record.value.until then Skipped
    else if row.kind.Container? && setting.containersBlocked then Skipped
    else if row.status.Pending? || row.status.Queued? then Skipped
    else if row.status.Building? && meets.activeBuild.None? then Aborted
    else if row.status.Building? && meets.activeBuild.value then Skipped
    else if ActualStatus(row, meets).None? then Skipped
    else if !meets.rowRead then Aborted
    else if row.kind.Container? && meets.observationBlocks then Skipped
    else if ActualStatus(row, meets).value.Running? then Up
    else if setting.gatewayOff && row.kind.SharedStatic? then Skipped
    else if FreshlyFailed(row, meets) && record.None? then Seeded
    else if meets.stillWanted.None? then CheckFailed
    else if !meets.stillWanted.value then Skipped
    else if meets.manualBuild.None? then CheckFailed
    else if meets.manualBuild.value then Skipped
    else if row.kind.Container? && meets.rolledBack then RolledBack
    else if meets.restarted then Restarted
    else RestartFailed
  }

  function Count(record: Option<Record>): nat {
    if record.Some? then record.value.count else 0
  }

  /** The delay is computed before the failure is noted: when that raises, nothing is. */
  function AfterFailure(record: Option<Record>, failedAt: real): Option<Record> {
    var n := Count(record) + 1;
    var delay := Delay(n);
    if delay.None? then record else Some(Record(n, failedAt + delay.value))
  }

  function NextRecord(record: Option<Record>, verdict: Verdict, meets: Meets): Option<Record> {
    match verdict
    case Up => None
    case RolledBack => None
    case Restarted => None
    case Seeded => Some(Record(1, meets.seededAt + BASE))
    case RestartFailed => AfterFailure(record, meets.failedAt)
    case CheckFailed => AfterFailure(record, meets.failedAt)
    case _ => record
  }

  /** An exception leaves `reconcile`, so the rows after this one are not considered. */
  predicate EndsPass(record: Option<Record>, verdict: Verdict) {
    verdict.Aborted? || (Fails(verdict) && Delay(Count(record) + 1).None?)
  }

  predicate Ends(record: Option<Record>, visit: Visit) {
    EndsPass(record, Decide(record, visit))
  }

  function Of(records: Records, id: Id): Option<Record> {
    if id in records then Some(records[id]) else None
  }

  function Put(records: Records, id: Id, record: Option<Record>): Records {
    if record.Some? then records[id := record.value] else records - {id}
  }

  function VerdictOf(records: Records, visit: Visit): Verdict {
    Decide(Of(records, visit.row.id), visit)
  }

  function Visited(records: Records, visit: Visit): Records {
    var record := Of(records, visit.row.id);
    Put(records, visit.row.id, NextRecord(record, Decide(record, visit), visit.meets))
  }

  /** The records after a sequence of visits. */
  function After(records: Records, visits: seq<Visit>): Records {
    if visits == [] then records
    else Visited(After(records, visits[..|visits| - 1]), visits[|visits| - 1])
  }

  /** What visit `i` of a sequence comes to. */
  function VerdictAt(records: Records, visits: seq<Visit>, i: nat): Verdict
    requires i < |visits|
  {
    VerdictOf(After(records, visits[..i]), visits[i])
  }

  // ---- When a visit does what, written out -------------------------------------------------------

  /** The instance should be running, nothing holds it back, and it is in no transition. */
  predicate Due(record: Option<Record>, visit: Visit) {
    && visit.row.wanted
    && (visit.row.kind.Container? ==> !visit.meets.circuitOpen && !visit.setting.containersBlocked)
    && (record.Some? ==> visit.meets.now >= record.value.until)
    && match visit.row.status
       case Pending => false
       case Queued => false
       case Building => visit.meets.activeBuild == Some(false)
       case _ => true
  }

  /** It was looked at as far as it has to be: a container, and whatever the registry calls
      running, must be observed, and an error that a container's row names forbids any
      correction. */
  predicate LookedAt(visit: Visit) {
    && visit.meets.rowRead
    && match visit.row.kind
       case Container => visit.meets.observed.Some? && !visit.meets.observationBlocks
       case _ => visit.row.status == Running ==> visit.meets.observed.Some?
  }

  /** It is running after all: observed to be, where observation counts.  Of what is no container,
      only the rows called running or building are observed. */
  predicate FoundRunning(visit: Visit) {
    && visit.meets.observed == Some(Running)
    && (visit.row.kind == Container || visit.row.status in {Running, Building})
  }

  /** It failed less than sixty seconds ago, and nothing is on record. */
  predicate JustFailed(record: Option<Record>, visit: Visit) {
    && visit.row.status == Failed && record == None
    && match visit.row.updated
       case None => false
       case Some(at) => at != 0.0 && visit.meets.wall - at < 60.0
  }

  /** It is down, and to be brought back if the last checks allow it. */
  predicate ToBringBack(record: Option<Record>, visit: Visit) {
    && Due(record, visit) && LookedAt(visit) && !FoundRunning(visit)
    && !(visit.row.kind == SharedStatic && visit.setting.gatewayOff)
    && !JustFailed(record, visit)
  }

  /** A visit finds the instance up exactly when it is due, was looked at, and is running. */
  lemma UpIff(record: Option<Record>, visit: Visit)
    ensures Decide(record, visit) == Up <==> Due(record, visit) && LookedAt(visit) && FoundRunning(visit)
  {
    match visit.row.kind case Container => case _ =>
  }

  /** It waits one backoff first exactly when the instance is down and has just failed. */
  lemma SeededIff(record: Option<Record>, visit: Visit)
    ensures Decide(record, visit) == Seeded <==>
              && Due(record, visit) && LookedAt(visit) && !FoundRunning(visit)
              && !(visit.row.kind == SharedStatic && visit.setting.gatewayOff)
              && JustFailed(record, visit)
  {
    match visit.row.kind case Container => case _ =>
  }

  /** It acts exactly when the instance is down, the second look finds it wanted and no manual
      build stands in the way; a container is rolled back where that can be done, and everything
      else is restarted. */
  lemma ActsIff(record: Option<Record>, visit: Visit)
    ensures var v := Decide(record, visit);
            var acts := ToBringBack(record, visit) && visit.meets.stillWanted == Some(true) && visit.meets.manualBuild == Some(false);
            var back := visit.row.kind == Container && visit.meets.rolledBack;
            && (Acts(v) <==> acts)
            && (v == RolledBack <==> acts && back)
            && (v == Restarted <==> acts && !back && visit.meets.restarted)
            && (v == RestartFailed <==> acts && !back && !visit.meets.restarted)
  {
    match visit.row.kind case Container => case _ =>
  }

  /** A check before acting fails exactly when the instance is down and one of the two raises. */
  lemma CheckFailedIff(record: Option<Record>, visit: Visit)
    ensures Decide(record, visit) == CheckFailed <==>
              && ToBringBack(record, visit)
              && (visit.meets.stillWanted == None || (visit.meets.stillWanted == Some(true) && visit.meets.manualBuild == None))
  {
    match visit.row.kind case Container => case _ =>
  }

  /** The pass is aborted exactly when the registry cannot be read: for the active builds of a row
      that says building, or for the row itself after it was observed. */
  lemma AbortedIff(record: Option<Record>, visit: Visit)
    ensures Decide(record, visit) == Aborted <==>
              || (Due(record, visit.(row := visit.row.(status := Running)))
                  && visit.row.status == Building && visit.meets.activeBuild == None)
              || (Due(record, visit) && !visit.meets.rowRead
                  && (visit.row.kind == Container || visit.row.status == Running ==> visit.meets.observed != None))
  {
    match visit.row.kind case Container => case _ =>
  }

  /** What a visit that does not fail leaves on record, for every instance. */
  lemma RecordAfter(records: Records, visit: Visit)
    ensures var v, after, id := VerdictOf(records, visit), Visited(records, visit), visit.row.id;
            && (v in {Up, RolledBack, Restarted} ==> after == records - {id})
            && (v in {Skipped, Aborted} ==> after == records)
            && (v == Seeded ==> after == records[id := Record(1, visit.meets.seededAt + 60.0)])
            && (forall other :: other != id ==> Of(after, other) == Of(records, other))
  {
    hide Decide, AfterFailure;
  }

  // ---- One pass -----------------------------------------------------------------------------------

  /** How many of the rows a pass considers: up to the first at which an exception leaves it. */
  function Considered(records: Records, visits: seq<Visit>): (n: nat)
    ensures n <= |visits|
    decreases |visits|
  {
    if visits == [] then 0
    else if Ends(Of(records, visits[0].row.id), visits[0]) then 1
    else 1 + Considered(Visited(records, visits[0]), visits[1..])
  }

  predicate RunsThrough(records: Records, visits: seq<Visit>)
    decreases |visits|
  {
    visits != [] ==>
      !Ends(Of(records, visits[0].row.id), visits[0]) && RunsThrough(Visited(records, visits[0]), visits[1..])
  }

  /** The instances brought back by the first `n` visits, in order. */
  function Recovered(records: Records, visits: seq<Visit>, n: nat): seq<Id>
    requires n <= |visits|
  {
    if n == 0 then [] else
    var v := VerdictAt(records, visits, n - 1);
    Recovered(records, visits, n - 1) + if v.RolledBack? || v.Restarted? then [visits[n - 1].row.id] else []
  }

  /** An instance is among them exactly when one of its visits restarted it or rolled it back. */
  lemma {:induction false} RecoveredIff(records: Records, visits: seq<Visit>, n: nat, id: Id)
    requires n <= |visits|
    ensures id in Recovered(records, visits, n)
       <==> exists i :: 0 <= i < n && visits[i].row.id == id && VerdictAt(records, visits, i) in {RolledBack, Restarted}
  {
    hide VerdictAt;
    if n > 0 {
      RecoveredIff(records, visits, n - 1, id);
    }
  }

  /** _reconcile_failures, and the passes that use it. */
  class Reconciler {
    var failures: Records

    constructor ()
      ensures failures == map[]
    {
      failures := map[];
    }

    /** reconcile over the rows of one pass: the instances brought back, or None when an
        exception leaves it. */
    method Pass(visits: seq<Visit>) returns (restarted: Option<seq<Id>>)
      modifies this
      ensures failures == After(old(failures), visits[..Considered(old(failures), visits)])
      ensures restarted == if RunsThrough(old(failures), visits)
                           then Some(Recovered(old(failures), visits, |visits|)) else None
    {
      hide Decide, NextRecord, Ends, EndsPass, Considered, RunsThrough;
      ghost var was := failures;
      var back, n := [], 0;
      assert visits[0..] == visits;
      while n < |visits|
        invariant n <= |visits|
        invariant failures == After(was, visits[..n])
        invariant Considered(was, visits) == n + Considered(failures, visits[n..])
        invariant RunsThrough(was, visits) == RunsThrough(failures, visits[n..])
        invariant back == Recovered(was, visits, n)
      {
        var visit := visits[n];
        var id := visit.row.id;
        var record := Of(failures, id);
        var verdict := Decide(record, visit);
        OneMore(failures, visits[n..]);
        assert visits[n..][1..] == visits[n + 1..] && visits[..n + 1][..n] == visits[..n];
        failures := Put(failures, id, NextRecord(record, verdict, visit.meets));
        n := n + 1;
        if EndsPass(record, verdict) {
          assert Ends(record, visit) by { EndsIs(record, visit); }
          return None;
        }
        assert !Ends(record, visit) by { EndsIs(record, visit); }
        if verdict.RolledBack? || verdict.Restarted? {
          back := back + [id];
        }
      }
      NoMore(failures, visits[n..]);
      assert visits[..n] == visits;
      restarted := Some(back);
    }
  }

  lemma EndsIs(record: Option<Record>, visit: Visit)
    ensures Ends(record, visit) <==> EndsPass(record, Decide(record, visit))
  {
  }

  lemma OneMore(records: Records, visits: seq<Visit>)
    requires visits != []
    ensures var ends, next := Ends(Of(records, visits[0].row.id), visits[0]), Visited(records, visits[0]);
            && Considered(records, visits) == 1 + (if ends then 0 else Considered(next, visits[1..]))
            && RunsThrough(records, visits) == (!ends && RunsThrough(next, visits[1..]))
  {
  }

  lemma NoMore(records: Records, visits: seq<Visit>)
    requires visits == []
    ensures Considered(records, visits) == 0 && RunsThrough(records, visits)
  {
  }

  /** The rows of a pass have different ids: the id is the registry's primary key. */
  predicate OneRowEach(visits: seq<Visit>) {
    forall i, j :: 0 <= i < j < |visits| ==> visits[i].row.id != visits[j].row.id
  }

  /** The pass ends at row `i`, if it gets there; said of the records it started with. */
  predicate EndsAt(records: Records, visits: seq<Visit>, i: nat)
    requires i < |visits|
  {
    Ends(Of(records, visits[i].row.id), visits[i])
  }

  /** A row is considered exactly when no row before it ends the pass, and the pass runs through
      exactly when none does. */
  lemma {:induction false} ConsideredIff(records: Records, visits: seq<Visit>, i: nat)
    requires OneRowEach(visits) && i < |visits|
    ensures i < Considered(records, visits) <==> forall j :: 0 <= j < i ==> !EndsAt(records, visits, j)
    ensures RunsThrough(records, visits) <==> forall j :: 0 <= j < |visits| ==> !EndsAt(records, visits, j)
    decreases |visits|
  {
    hide Ends, Visited;
    var rest := visits[1..];
    var next := Visited(records, visits[0]);
    forall j | 1 <= j < |visits| ensures EndsAt(records, visits, j) <==> EndsAt(next, rest, j - 1) {
      OtherRecordsStay(records, visits[0], visits[j].row.id);
      assert rest[j - 1] == visits[j];
    }
    assert EndsAt(records, visits, 0) <==> Ends(Of(records, visits[0].row.id), visits[0]);
    if |rest| > 0 {
      ConsideredIff(next, rest, if i > 0 then i - 1 else 0);
      assert forall j :: 0 <= j < i - 1 ==> (EndsAt(next, rest, j) <==> EndsAt(records, visits, j + 1));
      assert forall j :: 0 <= j < |rest| ==> (EndsAt(next, rest, j) <==> EndsAt(records, visits, j + 1));
    }
    assert forall j :: 1 <= j < |visits| ==> (EndsAt(records, visits, j) <==> EndsAt(next, rest, j - 1));
  }

  lemma OtherRecordsStay(records: Records, visit: Visit, id: Id)
    requires visit.row.id != id
    ensures Of(Visited(records, visit), id) == Of(records, id)
  {
    hide Decide, NextRecord;
  }

  /** A visit ends the pass exactly when the registry cannot be read, or its restart fails with
      1024 failures in a row on record: no other failing restart keeps a row from being
      considered. */
  lemma EndsPassIff(record: Option<Record>, visit: Visit)
    ensures var v := Decide(record, visit);
            Ends(record, visit) <==> v.Aborted? || (Fails(v) && Count(record) >= FIRST_TOO_LARGE)
  {
    hide Decide;
  }

  // ---- Backoff --------------------------------------------------------------------------------------

  /** The monotonic clock never goes back: its readings, in the order they are taken. */
  predicate Monotone(visits: seq<Visit>) {
    && (forall i :: 0 <= i < |visits| ==>
          visits[i].meets.now <= visits[i].meets.seededAt && visits[i].meets.now <= visits[i].meets.failedAt)
    && (forall i, j :: 0 <= i < j < |visits| ==>
          visits[i].meets.failedAt <= visits[j].meets.now && visits[i].meets.seededAt <= visits[j].meets.now)
  }

  /** What _reconcile_failures can hold: an empty one does, and every visit keeps it. */
  predicate Capped(records: Records) {
    forall id :: id in records ==> records[id].count <= FIRST_TOO_LARGE
  }

  lemma VisitedIsCapped(records: Records, visit: Visit)
    requires Capped(records)
    ensures Capped(Visited(records, visit))
  {
    hide Decide;
  }

  lemma {:induction false} AfterIsCapped(records: Records, visits: seq<Visit>)
    requires Capped(records)
    ensures Capped(After(records, visits))
  {
    hide Visited;
    if visits != [] {
      AfterIsCapped(records, visits[..|visits| - 1]);
      VisitedIsCapped(After(records, visits[..|visits| - 1]), visits[|visits| - 1]);
    }
  }

  /** The delay starts at a minute, doubles up to an hour, and cannot be computed from the 1025th
      failure on. */
  lemma DelayDoubles(n: nat)
    requires n >= 1
    ensures Delay(1) == Some(60.0)
    ensures Delay(n).Some? <==> n <= 1024
    ensures Delay(n + 1).Some? ==>
              Delay(n + 1).value == if 2.0 * Delay(n).value <= 3600.0 then 2.0 * Delay(n).value else 3600.0
    ensures Delay(n).Some? ==> 60.0 <= Delay(n).value <= 3600.0
  {
    assert Doublings(0) == 1.0 && Doublings(n) == 2.0 * Doublings(n - 1);
    var d := Doublings(n - 1);
    AtLeastOne(n - 1);
    hide Doublings;
    assert BASE * (2.0 * d) == 2.0 * (BASE * d);
  }

  lemma AtLeastOne(n: nat)
    ensures Doublings(n) >= 1.0
  {
  }

  /** The failures in a row, counted from the verdicts alone: a success or a look that finds
      the instance up starts again, and a fresh failure found in the registry counts. */
  function Streak(records: Records, visits: seq<Visit>, n: nat, id: Id): nat
    requires n <= |visits|
  {
    if n == 0 then Count(Of(records, id))
    else if visits[n - 1].row.id != id then Streak(records, visits, n - 1, id)
    else
      var v := VerdictAt(records, visits, n - 1);
      if Fails(v) then Streak(records, visits, n - 1, id) + 1
      else if v.Seeded? then 1
      else if v in {Up, RolledBack, Restarted} then 0
      else Streak(records, visits, n - 1, id)
  }

  function Capping(k: nat): nat {
    if k <= FIRST_TOO_LARGE then k else FIRST_TOO_LARGE
  }

  lemma CountSteps(record: Option<Record>, v: Verdict, meets: Meets, k: nat)
    requires Count(record) == Capping(k)
    ensures Count(NextRecord(record, v, meets)) ==
            Capping(if Fails(v) then k + 1 else if v.Seeded? then 1 else if v in {Up, RolledBack, Restarted} then 0 else k)
  {
    hide Doublings;
  }

  /** The recorded count is the number of failures in a row, but never more than 1024. */
  lemma {:induction false} StreakIsCount(records: Records, visits: seq<Visit>, n: nat, id: Id)
    requires n <= |visits| && Capped(records)
    ensures Count(Of(After(records, visits[..n]), id)) == Capping(Streak(records, visits, n, id))
  {
    hide Decide, NextRecord, Fails, Capping, Count;
    if n == 0 {
      assert visits[..0] == [];
      FirstCount(records, id);
    } else {
      assert visits[..n][..n - 1] == visits[..n - 1];
      StreakIsCount(records, visits, n - 1, id);
      var before := After(records, visits[..n - 1]);
      if visits[n - 1].row.id == id {
        CountSteps(Of(before, id), VerdictOf(before, visits[n - 1]), visits[n - 1].meets, Streak(records, visits, n - 1, id));
      }
    }
  }

  lemma FirstCount(records: Records, id: Id)
    requires Capped(records)
    ensures Count(Of(records, id)) == Capping(Count(Of(records, id)))
  {
  }

  /** A failure is noted, with the delay for the failures in a row, exactly when fewer than 1024
      came before it; otherwise it ends the pass and leaves no trace. */
  lemma FailureIsNotedIff(records: Records, visits: seq<Visit>, i: nat)
    requires i < |visits| && Capped(records) && Fails(VerdictAt(records, visits, i))
    ensures var id := visits[i].row.id;
            var k := Streak(records, visits, i, id);
            var before, after := Of(After(records, visits[..i]), id), Of(After(records, visits[..i + 1]), id);
            && (Ends(before, visits[i]) <==> k >= FIRST_TOO_LARGE)
            && (k < FIRST_TOO_LARGE ==>
                  Delay(k + 1).Some? && after == Some(Record(k + 1, visits[i].meets.failedAt + Delay(k + 1).value)))
            && (k >= FIRST_TOO_LARGE ==> after == before)
  {
    hide Decide, Doublings, Streak;
    StreakIsCount(records, visits, i, visits[i].row.id);
    assert visits[..i + 1][..i] == visits[..i];
  }

  predicate HeldUntil(record: Option<Record>, d: real) {
    record.Some? && record.value.until >= d
  }

  lemma HeldBackOnce(record: Record, visit: Visit)
    requires visit.meets.now < record.until
    ensures Decide(Some(record), visit) == Skipped
  {
  }

  lemma VisitHolds(records: Records, visit: Visit, id: Id, d: real)
    requires HeldUntil(Of(records, id), d) && visit.meets.now < d
    ensures HeldUntil(Of(Visited(records, visit), id), d)
  {
    hide Decide;
    if visit.row.id == id {
      HeldBackOnce(records[id], visit);
    }
  }

  /** Until the deadline `d` the instance is held back, whatever else happens. */
  lemma {:induction false} HeldBack(records: Records, visits: seq<Visit>, i: nat, j: nat, id: Id, d: real)
    requires i < j <= |visits| && HeldUntil(Of(After(records, visits[..i + 1]), id), d)
    requires forall k :: i < k < j ==> visits[k].meets.now < d
    ensures HeldUntil(Of(After(records, visits[..j]), id), d)
    decreases j
  {
    hide Visited, Of, HeldUntil;
    if j > i + 1 {
      HeldBack(records, visits, i, j - 1, id, d);
      assert visits[..j][..j - 1] == visits[..j - 1];
      VisitHolds(After(records, visits[..j - 1]), visits[j - 1], id, d);
    }
  }

  /** After a failure that is one of the first 1024 in a row, the k-th say, the instance is not
      acted on again, and its deadline is not lifted, for Delay(k) seconds. */
  lemma BackoffHolds(records: Records, visits: seq<Visit>, i: nat, j: nat, id: Id)
    requires i < j < |visits| && Monotone(visits) && Capped(records)
    requires visits[i].row.id == id && Fails(VerdictAt(records, visits, i))
    requires visits[j].row.id == id && VerdictAt(records, visits, j) != Skipped
    ensures var k := Streak(records, visits, i, id) + 1;
            k <= 1024 ==> Delay(k).Some? && visits[j].meets.now >= visits[i].meets.failedAt + Delay(k).value
  {
    hide Decide, NextRecord, Delay, Streak;
    FailureIsNotedIff(records, visits, i);
    if Streak(records, visits, i, id) + 1 <= FIRST_TOO_LARGE {
      var d := Of(After(records, visits[..i + 1]), id).value.until;
      if visits[j].meets.now < d {
        HeldBack(records, visits, i, j, id, d);
        HeldBackOnce(Of(After(records, visits[..j]), id).value, visits[j]);
      }
    }
  }

  /** An instance that had just failed is not acted on again for a minute either. */
  lemma SeededHolds(records: Records, visits: seq<Visit>, i: nat, j: nat, id: Id)
    requires i < j < |visits| && Monotone(visits)
    requires visits[i].row.id == id && VerdictAt(records, visits, i) == Seeded
    requires visits[j].row.id == id && VerdictAt(records, visits, j) != Skipped
    ensures visits[j].meets.now >= visits[i].meets.seededAt + 60.0
  {
    hide Decide, Delay;
    var d := visits[i].meets.seededAt + 60.0;
    assert visits[..i + 1][..i] == visits[..i];
    RecordAfter(After(records, visits[..i]), visits[i]);
    if visits[j].meets.now < d {
      HeldBack(records, visits, i, j, id, d);
      HeldBackOnce(Of(After(records, visits[..j]), id).value, visits[j]);
    }
  }

  /** The next look at the instance comes within BASE seconds of the failure. */
  predicate SoonAfter(failed: Visit, next: Visit) {
    next.row.id == failed.row.id && failed.meets.failedAt <= next.meets.now < failed.meets.failedAt + BASE
  }

  /** A failure keeps the instance from being acted on for as long as the shortest delay
      exactly when fewer than 1024 failures in a row came before it.  From then on the next
      pass, meeting the same again, tries and fails again at once. */
  lemma HeldBackIff(records: Records, visits: seq<Visit>, i: nat)
    requires i < |visits| && Monotone(visits) && Capped(records) && Fails(VerdictAt(records, visits, i))
    ensures var after := After(records, visits[..i + 1]);
            (forall next :: SoonAfter(visits[i], next) ==> VerdictOf(after, next) == Skipped)
            <==> Streak(records, visits, i, visits[i].row.id) < FIRST_TOO_LARGE
  {
    hide Decide, Delay, Streak, After, NextRecord, Of, SoonAfter, VerdictOf, Fails;
    FailureIsNotedIff(records, visits, i);
    var k := Streak(records, visits, i, visits[i].row.id);
    if k < FIRST_TOO_LARGE {
      DelayDoubles(k + 1);
      forall next | SoonAfter(visits[i], next) ensures VerdictOf(After(records, visits[..i + 1]), next) == Skipped {
        HeldBackSoon(After(records, visits[..i + 1]), visits[i], next);
      }
    } else {
      TriedAtOnce(After(records, visits[..i]), After(records, visits[..i + 1]), visits[i]);
    }
  }

  lemma HeldBackSoon(records: Records, failed: Visit, next: Visit)
    requires SoonAfter(failed, next) && HeldUntil(Of(records, failed.row.id), failed.meets.failedAt + BASE)
    ensures VerdictOf(records, next) == Skipped
  {
    HeldBackOnce(records[failed.row.id], next);
    hide Decide;
  }

  lemma TriedAtOnce(before: Records, after: Records, failed: Visit)
    requires failed.meets.now <= failed.meets.failedAt
    requires Fails(VerdictOf(before, failed)) && Of(after, failed.row.id) == Of(before, failed.row.id)
    ensures exists next :: SoonAfter(failed, next) && VerdictOf(after, next) != Skipped
  {
    hide Decide;
    var again := failed.(meets := failed.meets.(now := failed.meets.failedAt));
    SameLaterSameVerdict(Of(after, failed.row.id), failed, again.meets.now);
    assert SoonAfter(failed, again);
  }

  /** Time passing lifts a deadline, and nothing else. */
  lemma SameLaterSameVerdict(record: Option<Record>, visit: Visit, now: real)
    requires now >= visit.meets.now && Fails(Decide(record, visit))
    ensures Decide(record, visit.(meets := visit.meets.(now := now))) == Decide(record, visit)
  {
  }

  /** A little more than an hour apart. */
  function AttemptTime(n: nat): real {
    3601.0 * n as real
  }

  /** A process that cannot be started. */
  function Attempt(n: nat): Visit {
    var at := AttemptTime(n);
    Visit(Row(0, true, Process, Down, None),
          Meets(false, at, Some(false), Some(Down), true, false, at, at, Some(true), Some(false), false, false, at),
          Setting(false, false))
  }

  function Attempts(n: nat): (visits: seq<Visit>)
    ensures |visits| == n && forall i :: 0 <= i < n ==> visits[i] == Attempt(i)
  {
    if n == 0 then [] else Attempts(n - 1) + [Attempt(n - 1)]
  }

  lemma {:induction false} AttemptsAreCounted(n: nat)
    requires n <= FIRST_TOO_LARGE
    ensures var r := Of(After(map[], Attempts(n)), 0);
            Count(r) == n && (r.Some? ==> r.value.until <= AttemptTime(n))
  {
    hide Visited, Attempt, Of, AttemptTime, After;
    if n > 0 {
      AttemptsAreCounted(n - 1);
      LastOf(map[], Attempts(n));
      assert Attempts(n)[..n - 1] == Attempts(n - 1);
      AttemptIsCounted(After(map[], Attempts(n - 1)), n - 1);
    } else {
      NoVisits(map[]);
      NoRecordYet(0);
    }
  }

  lemma NoRecordYet(id: Id)
    ensures Of(map[], id).None?
  {
  }

  lemma AttemptIsCounted(records: Records, n: nat)
    requires n < FIRST_TOO_LARGE && Count(Of(records, 0)) == n
    requires Of(records, 0).Some? ==> Of(records, 0).value.until <= AttemptTime(n)
    ensures var r := Of(Visited(records, Attempt(n)), 0);
            r.Some? && r.value.count == n + 1 && r.value.until <= AttemptTime(n + 1)
  {
    DelayDoubles(n + 1);
    hide Doublings, Delay;
    assert Decide(Of(records, 0), Attempt(n)) == RestartFailed;
  }

  /** The limit is reached: after 1024 attempts that fail, about 43 days, the next one fails,
      ends the pass, and leaves everything as it was. */
  lemma LimitIsReached()
    ensures Monotone(Attempts(FIRST_TOO_LARGE + 1))
    ensures var records, visit := After(map[], Attempts(FIRST_TOO_LARGE)), Attempt(FIRST_TOO_LARGE);
            && Count(Of(records, 0)) == FIRST_TOO_LARGE
            && VerdictOf(records, visit) == RestartFailed
            && Considered(records, [visit, Attempt(0).(row := Row(1, true, Process, Down, None))]) == 1
            && Visited(records, visit) == records
  {
    AttemptsAreCounted(FIRST_TOO_LARGE);
    LastAttempt(After(map[], Attempts(FIRST_TOO_LARGE)));
  }

  lemma LastAttempt(records: Records)
    requires var r := Of(records, 0);
             r.Some? && r.value.count == FIRST_TOO_LARGE && r.value.until <= AttemptTime(FIRST_TOO_LARGE)
    ensures var visit := Attempt(FIRST_TOO_LARGE);
            && VerdictOf(records, visit) == RestartFailed
            && Ends(Of(records, 0), visit) && Visited(records, visit) == records
  {
    hide Doublings;
  }

  // ---- Wishes -------------------------------------------------------------------------------------------

  /** An instance that every second look, just before acting, finds not wanted running is never
      acted on, and no failure is counted against it, however its first look finds it. */
  lemma {:induction false} StoppedIsLeftAlone(records: Records, visits: seq<Visit>, id: Id)
    requires forall i :: 0 <= i < |visits| && visits[i].row.id == id ==> visits[i].meets.stillWanted == Some(false)
    ensures forall i :: 0 <= i < |visits| && visits[i].row.id == id ==>
              !Acts(VerdictAt(records, visits, i)) && !Fails(VerdictAt(records, visits, i))
    ensures var (before, after) := (Of(records, id), Of(After(records, visits), id));
            after == before || after.None? || (Count(after) == 1 && exists i :: 0 <= i < |visits| && visits[i].row.id == id)
  {
    hide After;
    forall i | 0 <= i < |visits| && visits[i].row.id == id
      ensures !Acts(VerdictAt(records, visits, i)) && !Fails(VerdictAt(records, visits, i))
    {
      NotActedOn(Of(After(records, visits[..i]), id), visits[i]);
    }
    hide *;
    if visits != [] {
      var n := |visits| - 1;
      LastOf(records, visits);
      StoppedIsLeftAlone(records, visits[..n], id);
      StoppedStep(After(records, visits[..n]), visits[n], id);
    } else {
      NoVisits(records);
    }
  }

  lemma NoVisits(records: Records)
    ensures After(records, []) == records
  {
  }

  lemma LastOf(records: Records, visits: seq<Visit>)
    requires visits != []
    ensures After(records, visits) == Visited(After(records, visits[..|visits| - 1]), visits[|visits| - 1])
  {
  }

  lemma NotActedOn(record: Option<Record>, visit: Visit)
    requires visit.meets.stillWanted == Some(false)
    ensures !Acts(Decide(record, visit)) && !Fails(Decide(record, visit))
  {
  }

  lemma StoppedStep(records: Records, visit: Visit, id: Id)
    requires visit.row.id == id ==> visit.meets.stillWanted == Some(false)
    ensures var (before, after) := (Of(records, id), Of(Visited(records, visit), id));
            after == before || after.None? || (Count(after) == 1 && visit.row.id == id)
  {
    if visit.row.id == id { NotActedOn(Of(records, id), visit); }
    hide Decide;
  }

  // ---- Instances do not disturb each other -------------------------------------------------------------

  function Own(visits: seq<Visit>, id: Id): seq<Visit> {
    if visits == [] then []
    else
      var last := visits[|visits| - 1];
      Own(visits[..|visits| - 1], id) + if last.row.id == id then [last] else []
  }

  /** The verdicts on one instance, in order. */
  function OwnVerdicts(records: Records, visits: seq<Visit>, id: Id): seq<Verdict> {
    if visits == [] then []
    else
      var before, last := visits[..|visits| - 1], visits[|visits| - 1];
      OwnVerdicts(records, before, id) + if last.row.id == id then [VerdictOf(After(records, before), last)] else []
  }

  /** Each of its visits stands among its own, with its verdict at the same place. */
  lemma {:induction false} OwnPlace(records: Records, visits: seq<Visit>, i: nat, id: Id)
    requires i < |visits| && visits[i].row.id == id
    ensures var own, verdicts, n := Own(visits, id), OwnVerdicts(records, visits, id), |Own(visits[..i], id)|;
            && n < |own| == |verdicts|
            && own[n] == visits[i]
            && verdicts[n] == VerdictAt(records, visits, i)
    decreases |visits|
  {
    hide Decide, After;
    var before := visits[..|visits| - 1];
    SameLength(records, before, id);
    if i < |before| {
      assert before[..i] == visits[..i];
      OwnPlace(records, before, i, id);
    }
  }

  lemma {:induction false} SameLength(records: Records, visits: seq<Visit>, id: Id)
    ensures |Own(visits, id)| == |OwnVerdicts(records, visits, id)|
  {
    hide Decide, After;
    if visits != [] {
      SameLength(records, visits[..|visits| - 1], id);
    }
  }

  /** Of the visits that take place, only its own decide about an instance. */
  lemma {:induction false} OwnVisitsDecide(records: Records, visits: seq<Visit>, id: Id)
    ensures Of(After(records, visits), id) == Of(After(records, Own(visits, id)), id)
    ensures OwnVerdicts(records, visits, id) == OwnVerdicts(records, Own(visits, id), id)
  {
    hide Decide, NextRecord;
    if visits != [] {
      var before, last := visits[..|visits| - 1], visits[|visits| - 1];
      OwnVisitsDecide(records, before, id);
      if last.row.id == id {
        var own := Own(before, id) + [last];
        assert own[..|own| - 1] == Own(before, id);
      } else {
        assert Own(before, id) + [] == Own(before, id);
      }
    }
  }

  /** The visits of a pass that take place. */
  function Taken(records: Records, visits: seq<Visit>): seq<Visit> {
    visits[..Considered(records, visits)]
  }

  /** No other instance ends the pass: none meets an unreadable registry, and none fails for
      the 1025th time in a row. */
  predicate Undisturbed(records: Records, visits: seq<Visit>, id: Id) {
    forall i :: 0 <= i < |visits| && visits[i].row.id != id ==> !EndsAt(records, visits, i)
  }

  lemma OwnOfOthers(visits: seq<Visit>, n: nat, id: Id)
    requires n <= |visits| && forall i :: n <= i < |visits| ==> visits[i].row.id != id
    ensures Own(visits, id) == Own(visits[..n], id)
    decreases |visits|
  {
    if n < |visits| {
      assert visits[..|visits| - 1][..n] == visits[..n];
      OwnOfOthers(visits[..|visits| - 1], n, id);
    } else {
      assert visits[..n] == visits;
    }
  }

  lemma OwnIsTaken(records: Records, visits: seq<Visit>, id: Id)
    requires OneRowEach(visits) && Undisturbed(records, visits, id)
    ensures Own(Taken(records, visits), id) == Own(visits, id)
  {
    hide EndsAt, Considered;
    var n := Considered(records, visits);
    forall i | n <= i < |visits| ensures visits[i].row.id != id {
      ConsideredIff(records, visits, i);
    }
    OwnOfOthers(visits, n, id);
  }

  /** Whether other instances fail, work or are there at all changes nothing for `id` in a
      pass that none of them ends: with the same row of its own it gets the same verdict and
      the same record. */
  lemma OthersDoNotMatter(records: Records, visits: seq<Visit>, visits': seq<Visit>, id: Id)
    requires OneRowEach(visits) && Undisturbed(records, visits, id)
    requires OneRowEach(visits') && Undisturbed(records, visits', id)
    requires Own(visits, id) == Own(visits', id)
    ensures var taken, taken' := Taken(records, visits), Taken(records, visits');
            && OwnVerdicts(records, taken, id) == OwnVerdicts(records, taken', id)
            && Of(After(records, taken), id) == Of(After(records, taken'), id)
  {
    OwnIsTaken(records, visits, id);
    OwnIsTaken(records, visits', id);
    OwnVisitsDecide(records, Taken(records, visits), id);
    OwnVisitsDecide(records, Taken(records, visits'), id);
  }
}
