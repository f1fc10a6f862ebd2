/**
The daemon's inbox loop: archives that have settled are handed over once, moved away, and
recorded; archives that fail are retried a few times and then set aside.
*/
module ArchiveWatch {
  import opened Wrappers
  import opened ArchiveRecord

  const MAX_ATTEMPTS := 5

  datatype Stamp = Stamp(mtime: real, size: int)

  /** One look at one archive of the inbox, with everything the code meets there. */
  datatype Look = Look(
    path: Key,
    key: Key,               // path, size and mtime in one string
    stamp: Option<Stamp>,   // None: the file cannot be looked at
    now: real,
    handled: bool,          // process_fn did not report failure
    moved: bool)            // the archive could be moved out of the inbox

  /** How reading the record goes: it is read, it cannot be opened or is no JSON, or it is not
      UTF-8, which raises. */
  datatype Reading = Whole | Broken | NotText

  /** A poll whose reading raises is no step: it ends the watcher, and with it the run. */
  datatype Step = Poll(readable: bool) | See(look: Look)

  /** `file` is the stored record, None when there is none or it is not a list. */
  datatype Memory = Memory(file: Option<seq<Key>>, processed: seq<Key>, stamps: map<Key, Stamp>, fails: map<Key, nat>)

  datatype Verdict =
    | Polled
    | Duplicate      // already handled: moved away, not handed over
    | Unsettled      // not seen unchanged for long enough
    | Failed         // handed over, and it failed; to be tried again
    | SetAside       // handed over, it failed, and it was moved to the failed ones
    | Kept           // handed over, but not moved, so not recorded
    | Recorded       // handed over, moved and recorded

  predicate HandedOver(v: Verdict) {
    v in {Failed, SetAside, Kept, Recorded}
  }

  const UNSEEN := Stamp(0.0, -1)

  function StampOf(look: Look): Stamp {
    if look.stamp.Some? then look.stamp.value else UNSEEN
  }

  /** is_file_stable */
  predicate Settled(stamps: map<Key, Stamp>, look: Look, window: real) {
    && look.stamp.Some? && look.path in stamps && stamps[look.path] == look.stamp.value
    && (look.now - look.stamp.value.mtime >= window || look.now - look.stamp.value.mtime < 0.0)
  }

  function Attempts(fails: map<Key, nat>, key: Key): nat {
    if key in fails then fails[key] else 0
  }

  function VerdictOf(m: Memory, look: Look, window: real): Verdict {
    if look.key in m.processed then Duplicate
    else if !Settled(m.stamps, look, window) then Unsettled
    else if look.handled then if look.moved then Recorded else Kept
    else if Attempts(m.fails, look.key) + 1 >= MAX_ATTEMPTS && look.moved then SetAside
    else Failed
  }

  function Seen(m: Memory, look: Look, window: real): Memory {
    match VerdictOf(m, look, window)
    case Duplicate => m
    case Unsettled => m.(stamps := m.stamps[look.path := StampOf(look)])
    case Failed =>
      m.(stamps := m.stamps - {look.path}, fails := m.fails[look.key := Attempts(m.fails, look.key) + 1])
    case SetAside => m.(stamps := m.stamps - {look.path}, fails := m.fails - {look.key})
    case Kept => m.(stamps := m.stamps - {look.path}, fails := m.fails - {look.key})
    case _ =>
      var processed := m.processed + [look.key, look.path];
      m.(stamps := m.stamps - {look.path}, fails := m.fails - {look.key},
         processed := processed, file := Some(Bounded(processed)))
  }

  /** load_processed_set: what cannot be read counts as empty. */
  function Loaded(file: Option<seq<Key>>, readable: bool): seq<Key> {
    if readable && file.Some? then Recent(file.value) else []
  }

  function Stepped(m: Memory, step: Step, window: real): Memory {
    match step
    case Poll(readable) => m.(processed := Loaded(m.file, readable))
    case See(look) => Seen(m, look, window)
  }

  function After(m: Memory, steps: seq<Step>, window: real): Memory {
    if steps == [] then m else Stepped(After(m, steps[..|steps| - 1], window), steps[|steps| - 1], window)
  }

  function VerdictAt(m: Memory, steps: seq<Step>, window: real, i: nat): Verdict
    requires i < |steps|
  {
    match steps[i]
    case Poll(_) => Polled
    case See(look) => VerdictOf(After(m, steps[..i], window), look, window)
  }

  // ---- One poll --------------------------------------------------------------------------------------

  function Steps(readable: bool, looks: seq<Look>): seq<Step> {
    [Poll(readable)] + seq(|looks|, i requires 0 <= i < |looks| => See(looks[i]))
  }

  class Watcher {
    var file: Option<seq<Key>>
    var stamps: map<Key, Stamp>
    var fails: map<Key, nat>
    ghost var processed: seq<Key>   // the list of the last poll

    constructor (file: Option<seq<Key>>)
      ensures Now() == Memory(file, [], map[], map[])
    {
      this.file, stamps, fails, processed := file, map[], map[], [];
    }

    ghost function Now(): Memory
      reads this
    {
      Memory(file, processed, stamps, fails)
    }

    /** One archive of the inbox; `known` is the list of handled keys. */
    method Meet(look: Look, window: real, known: seq<Key>) returns (known': seq<Key>, handedOver: bool)
      requires known == processed
      modifies this
      ensures Now() == Seen(old(Now()), look, window) && known' == processed
      ensures handedOver == HandedOver(VerdictOf(old(Now()), look, window))
    {
      hide Bounded, Recent, Settled;
      var key := look.key;
      known', handedOver := known, false;
      if key in known { return; }
      var stable := Settled(stamps, look, window);
      stamps := stamps[look.path := StampOf(look)];
      if !stable { return; }
      handedOver := true;
      if !look.handled {
        var count := (if key in fails then fails[key] else 0) + 1;
        fails := fails[key := count];
        if count >= MAX_ATTEMPTS && look.moved {
          fails := fails - {key};
        }
      } else {
        fails := fails - {key};
        if look.moved {
          known' := known' + [key];
          known' := known' + [look.path];
          assert known' == known + [key, look.path];
          processed := known';
          var kept := Ordered(known');
          BoundedIs(known');
          file := Some(if |kept| <= LIMIT then kept else kept[|kept| - LIMIT..]);
        }
      }
      stamps := stamps - {look.path};
    }

    /** The part of run_watcher's loop that looks after the inbox; the result is None when an
        exception leaves it, before anything is looked at. */
    method PollInbox(reading: Reading, looks: seq<Look>, window: real) returns (result: Option<seq<Key>>)
      modifies this
      ensures reading.NotText? ==> result.None? && Now() == old(Now())
      ensures !reading.NotText? ==>
                && Now() == After(old(Now()), Steps(reading.Whole?, looks), window)
                && result == Some(HandedOverBy(old(Now()), Steps(reading.Whole?, looks), window))
    {
      hide Bounded, Recent, Seen, VerdictOf, After, HandedOverBy;
      if reading.NotText? { return None; }
      var readable := reading.Whole?;
      ghost var was := Now();
      ghost var steps := Steps(readable, looks);
      var known: seq<Key> := [];
      if readable && file.Some? {
        known := Ordered(file.value);
      }
      processed := known;
      var handedOver := [];
      OnePoll(was, readable, looks, window);
      for i := 0 to |looks|
        invariant known == processed
        invariant Now() == After(was, steps[..i + 1], window)
        invariant handedOver == HandedOverBy(was, steps[..i + 1], window)
      {
        OneMore(was, steps, window, i + 1);
        var more;
        known, more := Meet(looks[i], window, known);
        if more {
          handedOver := handedOver + [looks[i].key];
        }
      }
      assert steps[..|looks| + 1] == steps;
      result := Some(handedOver);
    }
  }

  /** The keys handed over to process_fn, in order. */
  function HandedOverBy(m: Memory, steps: seq<Step>, window: real): seq<Key> {
    if steps == [] then []
    else
      var n := |steps| - 1;
      HandedOverBy(m, steps[..n], window)
      + if steps[n].See? && HandedOver(VerdictOf(After(m, steps[..n], window), steps[n].look, window))
        then [steps[n].look.key] else []
  }

  lemma OnePoll(m: Memory, readable: bool, looks: seq<Look>, window: real)
    ensures var first := Steps(readable, looks)[..1];
            After(m, first, window) == m.(processed := Loaded(m.file, readable)) && HandedOverBy(m, first, window) == []
  {
    var first := Steps(readable, looks)[..1];
    assert first == [Poll(readable)] && first[..0] == [];
    assert After(m, [], window) == m;
    hide Recent;
  }

  lemma OneMore(m: Memory, steps: seq<Step>, window: real, n: nat)
    requires n < |steps| && steps[n].See?
    ensures var before := After(m, steps[..n], window);
            && After(m, steps[..n + 1], window) == Seen(before, steps[n].look, window)
            && HandedOverBy(m, steps[..n + 1], window)
               == HandedOverBy(m, steps[..n], window)
                  + if HandedOver(VerdictOf(before, steps[n].look, window)) then [steps[n].look.key] else []
  {
    assert steps[..n + 1][..n] == steps[..n];
    hide Bounded, Recent, Settled;
  }

  // ---- What the record holds ---------------------------------------------------------------------------

  /** Everything recorded so far, oldest first: for each archive its key and its path. */
  function Uses(m: Memory, steps: seq<Step>, window: real): seq<Key> {
    if steps == [] then []
    else
      var n := |steps| - 1;
      Uses(m, steps[..n], window) + UsedBy(After(m, steps[..n], window), steps[n], window)
  }

  function UsedBy(m: Memory, step: Step, window: real): seq<Key> {
    if step.See? && VerdictOf(m, step.look, window) == Recorded then [step.look.key, step.look.path] else []
  }

  function StoredIn(file: Option<seq<Key>>): seq<Key> {
    if file.Some? then file.value else []
  }

  /** A run that starts with a poll and can read the record at every poll. */
  predicate Readable(steps: seq<Step>) {
    && steps != [] && steps[0].Poll?
    && forall i :: 0 <= i < |steps| ==> steps[i] != Poll(false)
  }

  /** The record agrees with the history `uses`. */
  predicate Exact(first: Option<seq<Key>>, uses: seq<Key>, m: Memory) {
    && Bounded(m.processed) == Bounded(StoredIn(first) + uses)
    && m.file == if uses == [] then first else Some(Bounded(StoredIn(first) + uses))
  }

  lemma {:induction false} RecordIsExact(m: Memory, steps: seq<Step>, window: real)
    requires Readable(steps)
    ensures Exact(m.file, Uses(m, steps, window), After(m, steps, window))
    decreases |steps|
  {
    var n := |steps| - 1;
    var before, step := After(m, steps[..n], window), steps[n];
    hide Bounded, Recent, VerdictOf, Exact;
    if n == 0 {
      assert steps[..n] == [];
      FirstPollIsExact(m);
    } else {
      assert Readable(steps[..n]);
      RecordIsExact(m, steps[..n], window);
      StepIsExact(m.file, Uses(m, steps[..n], window), before, step, window);
    }
  }

  lemma FirstPollIsExact(m: Memory)
    ensures Exact(m.file, [], m.(processed := Loaded(m.file, true)))
  {
    var stored := StoredIn(m.file);
    assert stored + [] == stored;
    assert Recent([]) == [];
    hide Bounded, Recent;
    BoundedRecent(stored);
  }

  lemma BoundedRecent(s: seq<Key>)
    ensures Bounded(Recent(s)) == Bounded(s)
  {
    RecentIsDistinct(s);
    hide Recent;
    RecentOfDistinct(Recent(s));
  }

  lemma StepIsExact(first: Option<seq<Key>>, uses: seq<Key>, m: Memory, step: Step, window: real)
    requires Exact(first, uses, m) && step != Poll(false)
    ensures Exact(first, uses + UsedBy(m, step, window), Stepped(m, step, window))
  {
    var h := StoredIn(first) + uses;
    hide Bounded, Recent;
    if step.Poll? {
      assert uses + [] == uses;
      if uses == [] {
        FirstPollIsExact(m);
      } else {
        BoundedRecent(Bounded(h));
        assert Bounded(h) + [] == Bounded(h) && h + [] == h;
        BoundedIsExact(h, []);
      }
    } else {
      var e := UsedBy(m, step, window);
      if e == [] {
        assert uses + e == uses;
      } else {
        BoundedIsExact(m.processed, e);
        BoundedIsExact(h, e);
        assert h + e == StoredIn(first) + (uses + e);
      }
    }
  }

  lemma {:induction false} RunsCompose(m: Memory, a: seq<Step>, b: seq<Step>, window: real)
    ensures After(m, a + b, window) == After(After(m, a, window), b, window)
    ensures Uses(m, a + b, window) == Uses(m, a, window) + Uses(After(m, a, window), b, window)
    decreases |b|
  {
    hide Stepped, UsedBy;
    if b == [] {
      assert a + b == a && Uses(m, a, window) + [] == Uses(m, a, window);
    } else {
      var n := |b| - 1;
      assert (a + b)[..|a + b| - 1] == a + b[..n] && (a + b)[|a + b| - 1] == b[n];
      RunsCompose(m, a, b[..n], window);
    }
  }

  /** An archive that was handled and moved away is never handed over again while fewer than
      2048 different keys have been recorded since. */
  lemma NeverHandedOverAgain(m: Memory, steps: seq<Step>, window: real, i: nat, j: nat)
    requires Readable(steps) && i < j < |steps| && steps[i].See? && steps[j].See?
    requires VerdictAt(m, steps, window, i) == Recorded && steps[j].look.key == steps[i].look.key
    requires |Recent([steps[i].look.path] + Uses(After(m, steps[..i + 1], window), steps[i + 1..j], window))| < 2048
    ensures VerdictAt(m, steps, window, j) == Duplicate
  {
    var look, before := steps[i].look, steps[..i];
    var later := Uses(After(m, steps[..i + 1], window), steps[i + 1..j], window);
    assert steps[..j] == steps[..i + 1] + steps[i + 1..j] && steps[..i + 1][..i] == before;
    RunsCompose(m, steps[..i + 1], steps[i + 1..j], window);
    assert Readable(steps[..j]);
    hide Bounded, Recent, Settled, After, Readable;
    RecordIsExact(m, steps[..j], window);
    assert Uses(m, steps[..i + 1], window) == Uses(m, before, window) + [look.key, look.path];
    var first := StoredIn(m.file) + Uses(m, before, window);
    HistoryHasKey(StoredIn(m.file), Uses(m, before, window), look.key, look.path, later);
    KeptWhileRecent(first, look.key, [look.path] + later);
    InBounded(After(m, steps[..j], window).processed, look.key);
  }

  lemma HistoryHasKey(stored: seq<Key>, uses: seq<Key>, key: Key, path: Key, later: seq<Key>)
    ensures stored + (uses + [key, path] + later) == stored + uses + [key] + ([path] + later)
  {
  }

  lemma InBounded(s: seq<Key>, key: Key)
    requires key in Bounded(s)
    ensures key in s
  {
    RecentIsDistinct(s);
    hide Recent;
  }

  /** A record that cannot be opened or is no JSON counts as empty, so the next archive recorded
      in that poll replaces it: everything recorded before is forgotten. */
  lemma UnreadableRecordIsForgotten(m: Memory, look: Look, window: real)
    requires look.path != look.key && look.handled && look.moved && Settled(m.stamps, look, window)
    ensures After(m, [Poll(false), See(look)], window).file == Some([look.key, look.path])
  {
    var steps := [Poll(false), See(look)];
    assert steps[..1] == [Poll(false)] && [Poll(false)][..0] == [];
    assert After(m, [Poll(false)], window) == m.(processed := []);
    var entry := [look.key, look.path];
    assert [] + entry == entry;
    RecentOfDistinct(entry);
    BoundedIs(entry);
    hide Recent;
  }

  // ---- Retries -------------------------------------------------------------------------------------------

  /** Step `i` looks at `key`, and this comes of it. */
  predicate Gets(m: Memory, steps: seq<Step>, window: real, key: Key, i: nat, verdicts: set<Verdict>)
    requires i < |steps|
  {
    steps[i].See? && steps[i].look.key == key && VerdictAt(m, steps, window, i) in verdicts
  }

  /** How often `key` failed and was to be tried again from step `i` to before step `j`. */
  function FailuresIn(m: Memory, steps: seq<Step>, window: real, key: Key, i: nat, j: nat): nat
    requires i <= j <= |steps|
  {
    if i == j then 0
    else FailuresIn(m, steps, window, key, i, j - 1) + if Gets(m, steps, window, key, j - 1, {Failed}) then 1 else 0
  }

  /** In these steps `key` was never handled and never set aside. */
  predicate InARow(m: Memory, steps: seq<Step>, window: real, key: Key, i: nat, j: nat)
    requires i <= j <= |steps|
  {
    forall k :: i <= k < j ==> !Gets(m, steps, window, key, k, {SetAside, Kept, Recorded})
  }

  function Counted(m: Memory, steps: seq<Step>, window: real, key: Key, n: nat): nat
    requires n <= |steps|
  {
    Attempts(After(m, steps[..n], window).fails, key)
  }

  /** One step changes the count of a key by its verdict alone. */
  lemma CountSteps(m: Memory, steps: seq<Step>, window: real, key: Key, n: nat)
    requires n < |steps|
    ensures var (before, after) := (Counted(m, steps, window, key, n), Counted(m, steps, window, key, n + 1));
            && (Gets(m, steps, window, key, n, {Failed}) ==>
                  after == before + 1 && (after >= MAX_ATTEMPTS ==> !steps[n].look.moved))
            && (Gets(m, steps, window, key, n, {SetAside}) ==>
                  after == 0 && before + 1 >= MAX_ATTEMPTS && steps[n].look.moved)
            && (Gets(m, steps, window, key, n, {Kept, Recorded}) ==> after == 0)
            && (!Gets(m, steps, window, key, n, {Failed, SetAside, Kept, Recorded}) ==> after == before)
  {
    assert steps[..n + 1][..n] == steps[..n];
    hide Bounded, Recent, Settled;
  }

  /** The count is what the verdicts say: the failures since the key was last handled or set
      aside, and those counted before if it never was. */
  lemma {:induction false} FailuresAreCounted(m: Memory, steps: seq<Step>, window: real, key: Key, i: nat, j: nat)
    requires i <= j <= |steps| && InARow(m, steps, window, key, i, j)
    ensures Counted(m, steps, window, key, j)
            == Counted(m, steps, window, key, i) + FailuresIn(m, steps, window, key, i, j)
    decreases j
  {
    hide Counted, Gets;
    if i < j {
      FailuresAreCounted(m, steps, window, key, i, j - 1);
      CountSteps(m, steps, window, key, j - 1);
      GetsOne(m, steps, window, key, j - 1);
    }
  }

  lemma GetsOne(m: Memory, steps: seq<Step>, window: real, key: Key, n: nat)
    requires n < |steps|
    ensures Gets(m, steps, window, key, n, {Failed, SetAside, Kept, Recorded}) <==>
            Gets(m, steps, window, key, n, {Failed}) || Gets(m, steps, window, key, n, {SetAside, Kept, Recorded})
  {
    hide VerdictAt;
  }

  /** An archive that can always be moved never fails five times in a row and is still
      to be tried again: it has been set aside instead. */
  lemma {:induction false} FailuresAreBounded(m: Memory, steps: seq<Step>, window: real, key: Key, i: nat, j: nat)
    requires i <= j <= |steps| && InARow(m, steps, window, key, i, j)
    requires forall k :: i <= k < j && steps[k].See? && steps[k].look.key == key ==> steps[k].look.moved
    ensures FailuresIn(m, steps, window, key, i, j) < 5
    decreases j
  {
    hide Counted;
    if i < j {
      FailuresAreBounded(m, steps, window, key, i, j - 1);
      if Gets(m, steps, window, key, j - 1, {Failed}) {
        CountSteps(m, steps, window, key, j - 1);
        FailuresAreCounted(m, steps, window, key, i, j);
      }
    }
  }

  /** And it is not set aside sooner: since it was last handled or set aside, at step `i` or
      before the run began with an empty table, it has failed four times. */
  lemma SetAsideAfterFailures(m: Memory, steps: seq<Step>, window: real, key: Key, i: nat, j: nat)
    requires i <= j < |steps| && Gets(m, steps, window, key, j, {SetAside}) && InARow(m, steps, window, key, i, j)
    requires if i == 0 then m.fails == map[] else Gets(m, steps, window, key, i - 1, {SetAside, Kept, Recorded})
    ensures FailuresIn(m, steps, window, key, i, j) >= 4
  {
    hide Gets;
    CountSteps(m, steps, window, key, j);
    FailuresAreCounted(m, steps, window, key, i, j);
    if i == 0 {
      assert steps[..0] == [];
      assert After(m, [], window) == m;
    } else {
      CountSteps(m, steps, window, key, i - 1);
      GetsEither(m, steps, window, key, i - 1);
    }
  }

  lemma GetsEither(m: Memory, steps: seq<Step>, window: real, key: Key, n: nat)
    requires n < |steps|
    ensures Gets(m, steps, window, key, n, {SetAside, Kept, Recorded}) ==>
            Gets(m, steps, window, key, n, {SetAside}) || Gets(m, steps, window, key, n, {Kept, Recorded})
  {
    hide VerdictAt;
  }

  // ---- Settling --------------------------------------------------------------------------------------------

  /** Step `k` is the last before `n` that looked at the path and did not take it for handled. */
  predicate LastLook(m: Memory, steps: seq<Step>, window: real, path: Key, k: nat, n: nat)
    requires n <= |steps|
  {
    && k < n && steps[k].See? && steps[k].look.path == path && VerdictAt(m, steps, window, k) != Duplicate
    && forall i :: k < i < n && steps[i].See? && steps[i].look.path == path ==> VerdictAt(m, steps, window, i) == Duplicate
  }

  lemma {:induction false} StampIs(m: Memory, steps: seq<Step>, window: real, path: Key, n: nat)
    requires m.stamps == map[] && n <= |steps|
    ensures var stamps := After(m, steps[..n], window).stamps;
            && (path in stamps ==> exists k: nat :: LastLook(m, steps, window, path, k, n))
            && forall k: nat :: LastLook(m, steps, window, path, k, n) ==>
                 && (path in stamps <==> VerdictAt(m, steps, window, k) == Unsettled)
                 && (path in stamps ==> stamps[path] == StampOf(steps[k].look))
  {
    NothingDone(m, window);
    hide After, VerdictAt, StampOf;
    if n == 0 {
      assert steps[..0] == [];
    } else {
      var stamps := After(m, steps[..n], window).stamps;
      StampIs(m, steps, window, path, n - 1);
      StampSteps(m, steps, window, path, n - 1);
      if Looked(steps, path, n - 1) && VerdictAt(m, steps, window, n - 1) != Duplicate {
        assert LastLook(m, steps, window, path, n - 1, n);
      } else {
        if path in stamps {
          var k: nat :| LastLook(m, steps, window, path, k, n - 1);
          assert LastLook(m, steps, window, path, k, n);
        }
        forall k: nat | LastLook(m, steps, window, path, k, n) ensures LastLook(m, steps, window, path, k, n - 1) {
        }
      }
    }
  }

  lemma NothingDone(m: Memory, window: real)
    ensures After(m, [], window) == m
  {
  }

  /** One step changes the note on a path only when it looks at it. */
  lemma StampSteps(m: Memory, steps: seq<Step>, window: real, path: Key, n: nat)
    requires n < |steps|
    ensures var before, after := After(m, steps[..n], window).stamps, After(m, steps[..n + 1], window).stamps;
            if !Looked(steps, path, n) || VerdictAt(m, steps, window, n) == Duplicate then
              (path in after <==> path in before) && (path in after ==> after[path] == before[path])
            else
              && (path in after <==> VerdictAt(m, steps, window, n) == Unsettled)
              && (path in after ==> after[path] == StampOf(steps[n].look))
  {
    assert steps[..n + 1][..n] == steps[..n];
    hide Bounded, Recent, Settled;
  }

  predicate Looked(steps: seq<Step>, path: Key, n: nat)
    requires n < |steps|
  {
    steps[n].See? && steps[n].look.path == path
  }

  /** An archive is handed over exactly when its key is not on record, the last look at its path
      that counts left it unsettled with the size and time it still has, and its time lies as far
      back as the window, or in the future. */
  lemma HandedOverIff(m: Memory, steps: seq<Step>, window: real, j: nat)
    requires m.stamps == map[] && j < |steps| && steps[j].See?
    requires steps[j].look.stamp.Some? ==> steps[j].look.stamp.value.size >= 0
    ensures var look := steps[j].look;
            HandedOver(VerdictAt(m, steps, window, j)) <==>
              && look.key !in After(m, steps[..j], window).processed
              && look.stamp.Some?
              && (exists k: nat :: LastLook(m, steps, window, look.path, k, j)
                    && VerdictAt(m, steps, window, k) == Unsettled && steps[k].look.stamp == look.stamp)
              && (look.now >= look.stamp.value.mtime + window || look.now < look.stamp.value.mtime)
  {
    hide Bounded, Recent, After, LastLook;
    StampIs(m, steps, window, steps[j].look.path, j);
  }

  /** What comes of a look: by whether it was handed over, handled and moved, and how often it has
      failed. */
  lemma OutcomeIs(m: Memory, steps: seq<Step>, window: real, j: nat)
    requires j < |steps| && steps[j].See?
    ensures var look, v := steps[j].look, VerdictAt(m, steps, window, j);
            && (v == Duplicate <==> look.key in After(m, steps[..j], window).processed)
            && (v == Recorded <==> HandedOver(v) && look.handled && look.moved)
            && (v == Kept <==> HandedOver(v) && look.handled && !look.moved)
            && (v == SetAside <==> HandedOver(v) && !look.handled && look.moved && Counted(m, steps, window, look.key, j) >= 4)
            && v != Polled
  {
    hide Bounded, Recent, After, Settled;
  }
}
