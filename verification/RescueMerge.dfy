/**
The rescue merge: files staged from a container are merged into the host directory.
Host files win unless they are still the seed; the sidecar files of a SQLite database
stay with their database; the copy is prepared first, committed by renames and undone by
renames.

Trees are maps from path to bytes.  `Host.others` are the paths where something other
than a regular file stands, such as a directory.
*/
module RescueMerge {
  import opened Text

  type Bytes = seq<bv8>

  datatype Path = Path(dir: seq<string>, name: string)

  type Tree = map<Path, Bytes>

  datatype Host = Host(files: Tree, others: set<Path>)

  const SIDECARS := ["-wal", "-shm", "-journal"]

  const RESERVED := ".lwa-rescue-pending"

  predicate IsReserved(p: Path) {
    if p.dir == [] then p.name == RESERVED else p.dir[0] == RESERVED
  }

  predicate Exists(h: Host, p: Path) {
    p in h.files || p in h.others
  }

  function Beside(p: Path, suffix: string): Path {
    p.(name := p.name + suffix)
  }

  function Base(p: Path, suffix: string): Path
    requires EndsWith(p.name, suffix)
  {
    p.(name := p.name[..|p.name| - |suffix|])
  }

  /** A sidecar name with nothing before the suffix, which is not a path. */
  predicate NoBase(p: Path) {
    exists k :: 0 <= k < |SIDECARS| && EndsWith(p.name, SIDECARS[k]) && Base(p, SIDECARS[k]).name in {"", "."}
  }

  /** The host's file may be replaced: it is a staged path, still has the seed's bytes, and
      has no sidecar on the host. */
  predicate Replaceable(h: Host, staged: Tree, seed: Tree, p: Path) {
    && p in staged && p in h.files && p in seed && h.files[p] == seed[p]
    && forall k :: 0 <= k < |SIDECARS| ==> !Exists(h, Beside(p, SIDECARS[k]))
  }

  /** A sidecar of a database that the host keeps. */
  predicate Blocked(h: Host, staged: Tree, seed: Tree, p: Path) {
    exists k :: 0 <= k < |SIDECARS| && EndsWith(p.name, SIDECARS[k])
                && Exists(h, Base(p, SIDECARS[k])) && !Replaceable(h, staged, seed, Base(p, SIDECARS[k]))
  }

  predicate Conflicts(h: Host, staged: Tree, seed: Tree, p: Path) {
    Blocked(h, staged, seed, p) || (Exists(h, p) && !Replaceable(h, staged, seed, p))
  }

  function Pending(h: Host, staged: Tree, seed: Tree): set<Path> {
    set p | p in staged && !Conflicts(h, staged, seed, p)
  }

  /** The host after a successful merge. */
  function Merged(h: Host, staged: Tree, seed: Tree): Tree {
    h.files + (map p | p in Pending(h, staged, seed) :: staged[p])
  }

  // ---- What a successful merge means ---------------------------------------------------

  lemma OneSuffix(p: Path, j: nat, k: nat)
    requires j < |SIDECARS| && k < |SIDECARS| && EndsWith(p.name, SIDECARS[j]) && EndsWith(p.name, SIDECARS[k])
    ensures j == k
  {
    var n := |p.name|;
    assert p.name[n - 3] == SIDECARS[j][|SIDECARS[j]| - 3] == SIDECARS[k][|SIDECARS[k]| - 3];
  }

  lemma BesideHasBase(p: Path, k: nat)
    requires k < |SIDECARS|
    ensures EndsWith(Beside(p, SIDECARS[k]).name, SIDECARS[k]) && Base(Beside(p, SIDECARS[k]), SIDECARS[k]) == p
  {
    assert (p.name + SIDECARS[k])[|p.name|..] == SIDECARS[k];
    assert (p.name + SIDECARS[k])[..|p.name|] == p.name;
  }

  /** Either tree's bytes, or the absence of the file. */
  predicate SameFile(a: Tree, b: Tree, p: Path) {
    (p in a <==> p in b) && (p in a && p in b ==> a[p] == b[p])
  }

  predicate SameWithSidecars(a: Tree, b: Tree, db: Path) {
    SameFile(a, b, db) && forall k :: 0 <= k < |SIDECARS| ==> SameFile(a, b, Beside(db, SIDECARS[k]))
  }

  lemma SidecarsStay(h: Host, staged: Tree, seed: Tree, db: Path)
    requires db in h.files
    requires !(Replaceable(h, staged, seed, db) && Blocked(h, staged, seed, db))
    ensures if Replaceable(h, staged, seed, db)
            then SameWithSidecars(Merged(h, staged, seed), staged, db)
            else SameWithSidecars(Merged(h, staged, seed), h.files, db)
  {
    var after := Merged(h, staged, seed);
    var r := Replaceable(h, staged, seed, db);
    assert SameFile(after, if r then staged else h.files, db);
    forall k | 0 <= k < |SIDECARS| ensures SameFile(after, if r then staged else h.files, Beside(db, SIDECARS[k])) {
      SidecarFollows(h, staged, seed, db, k);
    }
  }

  lemma SidecarFollows(h: Host, staged: Tree, seed: Tree, db: Path, k: nat)
    requires db in h.files && k < |SIDECARS|
    ensures SameFile(Merged(h, staged, seed), if Replaceable(h, staged, seed, db) then staged else h.files,
                     Beside(db, SIDECARS[k]))
  {
    var side := Beside(db, SIDECARS[k]);
    BesideHasBase(db, k);
    if Replaceable(h, staged, seed, db) {
      assert !Exists(h, side);
      forall j | 0 <= j < |SIDECARS| && EndsWith(side.name, SIDECARS[j])
        ensures Replaceable(h, staged, seed, Base(side, SIDECARS[j]))
      {
        OneSuffix(side, j, k);
      }
      assert !Blocked(h, staged, seed, side);
    } else {
      assert Blocked(h, staged, seed, side);
    }
  }

  const A := Path([], "a")
  const A_WAL := Beside(A, "-wal")
  const A_WAL_SHM := Beside(A_WAL, "-shm")

  /** `a` and `a-wal` on the host, `a-wal` still the seed, `a-wal` and `a-wal-shm` staged. */
  function MixedHost(host: Bytes): Host {
    Host(map[A := host, A_WAL := host], {})
  }

  function MixedStage(wal: Bytes, shm: Bytes): Tree {
    map[A_WAL := wal, A_WAL_SHM := shm]
  }

  lemma WalIsReplaceable(host: Bytes, wal: Bytes, shm: Bytes)
    ensures Replaceable(MixedHost(host), MixedStage(wal, shm), map[A_WAL := host], A_WAL)
  {
    assert |A_WAL.name| == 5;
    forall k | 0 <= k < |SIDECARS| ensures !Exists(MixedHost(host), Beside(A_WAL, SIDECARS[k])) {
      assert |Beside(A_WAL, SIDECARS[k]).name| > 5;
    }
  }

  lemma WalIsBlocked(host: Bytes, wal: Bytes, shm: Bytes)
    ensures Blocked(MixedHost(host), MixedStage(wal, shm), map[A_WAL := host], A_WAL)
  {
    BesideHasBase(A, 0);
    assert |A.name| == 1 && |A_WAL.name| == 5 && |A_WAL_SHM.name| == 9;
    assert A !in MixedStage(wal, shm);
    assert Base(A_WAL, SIDECARS[0]) == A && Exists(MixedHost(host), A);
  }

  /** The exception is real: here the host keeps its `a-wal` and takes the staged
      `a-wal-shm`. */
  lemma SidecarNamedDatabaseCanBeMixed(host: Bytes, wal: Bytes, shm: Bytes)
    requires wal != host
    ensures var after := Merged(MixedHost(host), MixedStage(wal, shm), map[A_WAL := host]);
            && SameFile(after, MixedHost(host).files, A_WAL) && !SameFile(after, MixedStage(wal, shm), A_WAL)
            && !SameFile(after, MixedHost(host).files, A_WAL_SHM) && SameFile(after, MixedStage(wal, shm), A_WAL_SHM)
  {
    var h, staged, seed := MixedHost(host), MixedStage(wal, shm), map[A_WAL := host];
    assert |A.name| == 1 && |A_WAL.name| == 5 && |A_WAL_SHM.name| == 9;
    WalIsReplaceable(host, wal, shm);
    WalIsBlocked(host, wal, shm);
    hide Blocked, Replaceable;
    SidecarFollows(h, staged, seed, A_WAL, 1);
  }

  /** Merging the same trees again changes no file, whatever directories have appeared in
      the meantime. */
  lemma MergingAgainChangesNothing(h: Host, staged: Tree, seed: Tree, others: set<Path>)
    requires h.others <= others
    ensures var after := Merged(h, staged, seed); Merged(Host(after, others), staged, seed) == after
  {
    var after := Merged(h, staged, seed);
    var h' := Host(after, others);
    forall p | p in Pending(h', staged, seed) ensures p in after && after[p] == staged[p] {
      if p !in Pending(h, staged, seed) {
        ConflictsLast(h, staged, seed, others, p);
      }
    }
  }

  /** What was replaceable and is replaceable again has been replaced. */
  lemma ConflictsLast(h: Host, staged: Tree, seed: Tree, others: set<Path>, p: Path)
    requires h.others <= others && p in staged && Conflicts(h, staged, seed, p)
    ensures Conflicts(Host(Merged(h, staged, seed), others), staged, seed, p)
  {
    var h' := Host(Merged(h, staged, seed), others);
    if Blocked(h, staged, seed, p) {
      var k :| 0 <= k < |SIDECARS| && EndsWith(p.name, SIDECARS[k])
               && Exists(h, Base(p, SIDECARS[k])) && !Replaceable(h, staged, seed, Base(p, SIDECARS[k]));
      KeptIsNotReplaceable(h, staged, seed, others, Base(p, SIDECARS[k]));
      assert Exists(h', Base(p, SIDECARS[k]));
    } else {
      KeptIsNotReplaceable(h, staged, seed, others, p);
      assert Exists(h', p);
    }
  }

  lemma KeptIsNotReplaceable(h: Host, staged: Tree, seed: Tree, others: set<Path>, p: Path)
    requires h.others <= others && Exists(h, p) && !Replaceable(h, staged, seed, p)
    ensures !Replaceable(Host(Merged(h, staged, seed), others), staged, seed, p)
  {
    var h' := Host(Merged(h, staged, seed), others);
    assert forall q :: Exists(h, q) ==> Exists(h', q);
    if p in h.files && p in seed && p in staged && h.files[p] == seed[p] {
      var k :| 0 <= k < |SIDECARS| && Exists(h, Beside(p, SIDECARS[k]));
      assert Exists(h', Beside(p, SIDECARS[k]));
    }
  }

  // ---- Which files are taken, written out ----------------------------------------------

  /** `side` is a sidecar file of `db`. */
  predicate SidecarOf(side: Path, db: Path) {
    side.dir == db.dir && side.name in {db.name + "-wal", db.name + "-shm", db.name + "-journal"}
  }

  /** The host's file has the seed's bytes, and nothing stands at any of its sidecar names. */
  ghost predicate StillSeed(h: Host, seed: Tree, p: Path) {
    && p in h.files && p in seed && h.files[p] == seed[p]
    && forall side :: SidecarOf(side, p) ==> side !in h.files && side !in h.others
  }

  /** A staged file is taken when the host has nothing there, or only the seed; and a sidecar only
      with a database that the host lacks, or that is taken itself. */
  ghost predicate Takes(h: Host, staged: Tree, seed: Tree, p: Path) {
    && ((p !in h.files && p !in h.others) || StillSeed(h, seed, p))
    && forall db :: SidecarOf(p, db) && (db in h.files || db in h.others) ==> db in staged && StillSeed(h, seed, db)
  }

  lemma SidecarNames(side: Path, db: Path)
    ensures SidecarOf(side, db) <==> exists k :: 0 <= k < |SIDECARS| && side == Beside(db, SIDECARS[k])
  {
    assert SIDECARS[0] == "-wal" && SIDECARS[1] == "-shm" && SIDECARS[2] == "-journal";
    if SidecarOf(side, db) {
      var k := if side.name == db.name + "-wal" then 0 else if side.name == db.name + "-shm" then 1 else 2;
      assert side == Beside(db, SIDECARS[k]);
    }
  }

  lemma ReplaceableIs(h: Host, staged: Tree, seed: Tree, p: Path)
    ensures Replaceable(h, staged, seed, p) <==> p in staged && StillSeed(h, seed, p)
  {
    forall side ensures SidecarOf(side, p) <==> exists k :: 0 <= k < |SIDECARS| && side == Beside(p, SIDECARS[k]) {
      SidecarNames(side, p);
    }
    hide SidecarOf;
    forall k | 0 <= k < |SIDECARS| ensures SidecarOf(Beside(p, SIDECARS[k]), p) {
    }
  }

  lemma BlockedIs(h: Host, staged: Tree, seed: Tree, p: Path)
    ensures Blocked(h, staged, seed, p) <==>
              exists db :: SidecarOf(p, db) && Exists(h, db) && !(db in staged && StillSeed(h, seed, db))
  {
    hide SidecarOf, StillSeed, Replaceable, Exists;
    if Blocked(h, staged, seed, p) {
      var k :| 0 <= k < |SIDECARS| && EndsWith(p.name, SIDECARS[k])
               && Exists(h, Base(p, SIDECARS[k])) && !Replaceable(h, staged, seed, Base(p, SIDECARS[k]));
      var db := Base(p, SIDECARS[k]);
      assert db.name + SIDECARS[k] == p.name;
      assert p == Beside(db, SIDECARS[k]);
      SidecarNames(p, db);
      ReplaceableIs(h, staged, seed, db);
    }
    if db :| SidecarOf(p, db) && Exists(h, db) && !(db in staged && StillSeed(h, seed, db)) {
      SidecarNames(p, db);
      var k :| 0 <= k < |SIDECARS| && p == Beside(db, SIDECARS[k]);
      BesideHasBase(db, k);
      ReplaceableIs(h, staged, seed, db);
    }
  }

  /** What is copied and what is reported, without a word about how it is decided. */
  lemma TakenIff(h: Host, staged: Tree, seed: Tree, p: Path)
    requires p in staged
    ensures p in Pending(h, staged, seed) <==> Takes(h, staged, seed, p)
  {
    ReplaceableIs(h, staged, seed, p);
    BlockedIs(h, staged, seed, p);
    hide SidecarOf, StillSeed, Replaceable, Blocked;
  }

  /** A database on the host and its sidecars stay together: all of them are the host's
      originals, or the database was an untouched seed and all of them are the staged ones.
      The one exception is a file that is the untouched seed and yet is not taken, because it is
      the sidecar of another database that stays. */
  lemma SidecarsStayWithTheirDatabase(h: Host, staged: Tree, seed: Tree, db: Path)
    requires db in h.files
    requires db in staged && StillSeed(h, seed, db) ==> Takes(h, staged, seed, db)
    ensures if db in staged && StillSeed(h, seed, db)
            then SameWithSidecars(Merged(h, staged, seed), staged, db)
            else SameWithSidecars(Merged(h, staged, seed), h.files, db)
  {
    ReplaceableIs(h, staged, seed, db);
    BlockedIs(h, staged, seed, db);
    hide SidecarOf, StillSeed, Replaceable, Blocked, SameWithSidecars, Merged;
    SidecarsStay(h, staged, seed, db);
  }

  /** A name that is no sidecar name never meets that exception. */
  lemma DatabaseIsNeverBlocked(h: Host, staged: Tree, seed: Tree, db: Path)
    requires db in h.files && !EndsWith(db.name, "-wal") && !EndsWith(db.name, "-shm") && !EndsWith(db.name, "-journal")
    ensures Takes(h, staged, seed, db) <==> StillSeed(h, seed, db)
  {
    forall main ensures !SidecarOf(db, main) {
      if SidecarOf(db, main) {
        SidecarNames(db, main);
        var k :| 0 <= k < |SIDECARS| && db == Beside(main, SIDECARS[k]);
        BesideHasBase(main, k);
      }
    }
    hide SidecarOf, StillSeed, EndsWith;
  }

  /** The host wins: a file that is not the seed's, byte for byte, is never replaced. */
  lemma ChangedFileIsKept(h: Host, staged: Tree, seed: Tree, p: Path)
    requires p in h.files && !(p in seed && seed[p] == h.files[p])
    ensures p in Merged(h, staged, seed) && Merged(h, staged, seed)[p] == h.files[p]
    ensures p in staged ==> p !in Pending(h, staged, seed)
  {
    if p in staged { TakenIff(h, staged, seed, p); }
    hide Conflicts;
  }

  /** A file that is no sidecar is taken when the host lacks it, and when the host's is still the
      seed and has no sidecar there. */
  lemma OrdinaryFileIsTaken(h: Host, staged: Tree, seed: Tree, p: Path)
    requires p in staged && forall db :: !SidecarOf(p, db)
    requires || (p !in h.files && p !in h.others)
             || (p in h.files && p in seed && seed[p] == h.files[p] && forall side :: SidecarOf(side, p) ==> !Exists(h, side))
    ensures p in Pending(h, staged, seed) && Merged(h, staged, seed)[p] == staged[p]
  {
    TakenIff(h, staged, seed, p);
    hide SidecarOf, Conflicts;
  }

  /** The outcome of a merge that is done: a host file that is not the seed's bytes stays, and is
      reported when it was staged; a staged file is taken or reported as `Takes` says; and no
      other file changes. */
  ghost predicate HostWins(h: Host, staged: Tree, seed: Tree, files: Tree, conflicts: seq<Path>) {
    && (forall p :: p in h.files && !(p in seed && seed[p] == h.files[p]) ==>
          p in files && files[p] == h.files[p] && (p in staged ==> p in conflicts))
    && (forall p :: p in staged ==>
          if Takes(h, staged, seed, p) then p in files && files[p] == staged[p] && p !in conflicts
          else p in conflicts && SameFile(files, h.files, p))
    && forall p :: p !in staged ==> p !in conflicts && SameFile(files, h.files, p)
  }

  lemma MergedFiles(h: Host, staged: Tree, seed: Tree)
    ensures var files, take := Merged(h, staged, seed), Pending(h, staged, seed);
            forall p ::
              && (p in take ==> p in staged && p in files && files[p] == staged[p])
              && (p !in take ==> SameFile(files, h.files, p))
  {
    hide Conflicts;
  }

  lemma HostWinsWhenMerged(h: Host, staged: Tree, seed: Tree, pending: seq<Path>, conflicts: seq<Path>)
    requires Divided(staged.Keys, Pending(h, staged, seed), pending, conflicts)
    ensures HostWins(h, staged, seed, Merged(h, staged, seed), conflicts)
  {
    var files := Merged(h, staged, seed);
    hide Takes, Pending, Merged;
    MergedFiles(h, staged, seed);
    forall p | p in staged ensures p in Pending(h, staged, seed) <==> Takes(h, staged, seed, p) {
      TakenIff(h, staged, seed, p);
    }
    forall p | p in h.files && !(p in seed && seed[p] == h.files[p])
      ensures p in files && files[p] == h.files[p] && (p in staged ==> p !in Pending(h, staged, seed))
    {
      ChangedFileIsKept(h, staged, seed, p);
    }
  }

  // ---- The transaction ------------------------------------------------------------------

  /** What a step that changes the directory does: it works, it fails without effect, or it
      takes effect and is then interrupted. */
  datatype Luck = Works | Fails | Interrupted

  /** What a call of the merge ends with.  `Refused` and `Undone` are exceptions after which
      the host is as before; `Stuck` is the exception that leaves the transaction directory,
      with the originals in it, for a person to look at; `LeftOver` is a failure to remove
      that directory when nothing in it is needed any more. */
  datatype Outcome =
    | Refused
    | Done(copied: nat, conflicts: seq<Path>)
    | Undone
    | Stuck
    | LeftOver(committed: bool)

  /** One moved or about to be moved destination; `backedUp` when the host had a file there. */
  datatype Written = Written(dest: Path, backedUp: bool)

  function Dests(written: seq<Written>): set<Path> {
    set k | 0 <= k < |written| :: written[k].dest
  }

  lemma OneMoreDest(written: seq<Written>, w: Written)
    ensures Dests(written + [w]) == Dests(written) + {w.dest}
  {
    var more := written + [w];
    assert more[|written|] == w && forall k :: 0 <= k < |written| ==> more[k] == written[k];
  }

  /** The destinations in `left` can be put back as they were in `was`, and no other has
      changed.  It holds after every single rename, so also wherever a process dies. */
  predicate Undoable(was: Tree, files: Tree, kept: Tree, left: set<Path>) {
    && (forall p :: p in was && p !in left ==> p in files && files[p] == was[p])
    && (forall p :: p in files && p !in left ==> p in was)
    && (forall p :: p in left && p in was ==>
          if p in kept then kept[p] == was[p] else p in files && files[p] == was[p])
  }

  predicate NotedRight(written: seq<Written>, was: Tree) {
    forall k :: 0 <= k < |written| ==> (written[k].backedUp <==> written[k].dest in was)
  }

  /** Each original is at its path or in the backup. */
  predicate NothingLost(was: Tree, files: Tree, kept: Tree) {
    forall p :: p in was ==> (p in files && files[p] == was[p]) || (p in kept && kept[p] == was[p])
  }

  lemma UndoOne(was: Tree, files: Tree, kept: Tree, left: set<Path>, p: Path)
    requires Undoable(was, files, kept, left + {p})
    ensures p !in was ==> Undoable(was, files - {p}, kept, left)
    ensures p in was && p in kept ==> Undoable(was, files[p := kept[p]], kept - {p}, left)
    ensures p in was && p !in kept ==> Undoable(was, files, kept, left)
  {
  }

  lemma LosesNothing(was: Tree, files: Tree, kept: Tree, left: set<Path>)
    requires Undoable(was, files, kept, left)
    ensures NothingLost(was, files, kept)
  {
  }

  lemma NoDests()
    ensures Dests([]) == {}
  {
  }

  lemma AllUndone(was: Tree, files: Tree, kept: Tree)
    requires Undoable(was, files, kept, {})
    ensures files == was
  {
  }

  /** No staged path is reserved, lands on a link or outside, or is a bare sidecar suffix. */
  predicate Acceptable(staged: Tree, unsafe: set<Path>) {
    forall p :: p in staged ==> !IsReserved(p) && p !in unsafe && !NoBase(p)
  }

  /** The same of one path, written out: a name that is a sidecar suffix with nothing, or only a
      dot, before it has no database to belong to. */
  predicate MustNotBeStaged(p: Path, unsafe: set<Path>) {
    || (if p.dir == [] then p.name else p.dir[0]) == ".lwa-rescue-pending"
    || p in unsafe
    || p.name in {"-wal", "-shm", "-journal", ".-wal", ".-shm", ".-journal"}
  }

  lemma BareSuffixes(p: Path)
    ensures NoBase(p) <==> p.name in {"-wal", "-shm", "-journal", ".-wal", ".-shm", ".-journal"}
  {
    BareSuffix(p, 0);
    BareSuffix(p, 1);
    BareSuffix(p, 2);
    assert SIDECARS[0] == "-wal" && SIDECARS[1] == "-shm" && SIDECARS[2] == "-journal";
    assert "." + "-wal" == ".-wal" && "." + "-shm" == ".-shm" && "." + "-journal" == ".-journal";
    hide Base, EndsWith;
  }

  lemma BareSuffix(p: Path, k: nat)
    requires k < |SIDECARS|
    ensures EndsWith(p.name, SIDECARS[k]) && Base(p, SIDECARS[k]).name in {"", "."} <==>
            p.name == SIDECARS[k] || p.name == "." + SIDECARS[k]
  {
    if EndsWith(p.name, SIDECARS[k]) {
      assert p.name == Base(p, SIDECARS[k]).name + SIDECARS[k];
      assert "" + SIDECARS[k] == SIDECARS[k];
    }
    if p.name == SIDECARS[k] {
      assert "" + SIDECARS[k] == SIDECARS[k];
      BesideHasBase(Path(p.dir, ""), k);
    } else if p.name == "." + SIDECARS[k] {
      BesideHasBase(Path(p.dir, "."), k);
    }
  }

  lemma AcceptableIff(staged: Tree, unsafe: set<Path>)
    ensures Acceptable(staged, unsafe) <==> forall p :: p in staged ==> !MustNotBeStaged(p, unsafe)
  {
    forall p ensures NoBase(p) <==> p.name in {"-wal", "-shm", "-journal", ".-wal", ".-shm", ".-journal"} {
      BareSuffixes(p);
    }
    hide NoBase;
  }

  /** Copied and reported files divide the staged ones. */
  ghost predicate Reports(h: Host, staged: Tree, seed: Tree, r: Outcome)
    requires r.Done?
  {
    && r.copied == |Pending(h, staged, seed)| && r.copied + |r.conflicts| == |staged|
    && (forall p :: p in r.conflicts <==> p in staged && p !in Pending(h, staged, seed))
  }

  /** The host directory with its transaction directory: `prepared` is its `new`, `kept` its
      `old`. */
  class HostDir {
    var files: Tree
    const others: set<Path>
    var transaction: bool
    var prepared: Tree
    var kept: Tree

    constructor (files: Tree, others: set<Path>)
      ensures this.files == files && this.others == others && !transaction && prepared == map[] && kept == map[]
    {
      this.files, this.others, this.transaction, this.prepared, this.kept := files, others, false, map[], map[];
    }

    function View(): Host
      reads this
    {
      Host(files, others)
    }

    /** The staged paths whose host file is still the seed; stops at a reserved path or at a
        destination that is a link or leads outside. */
    method FindSeeds(staged: Tree, seed: Tree, unsafe: set<Path>) returns (ok: bool, stillSeed: set<Path>)
      ensures ok <==> forall p :: p in staged ==> !IsReserved(p) && p !in unsafe
      ensures ok ==> forall p :: p in stillSeed <==> p in staged && Replaceable(View(), staged, seed, p)
      ensures ok ==> forall p :: p in stillSeed <==> p in staged && StillSeed(View(), seed, p)
    {
      forall p ensures Replaceable(View(), staged, seed, p) <==> p in staged && StillSeed(View(), seed, p) {
        ReplaceableIs(View(), staged, seed, p);
      }
      hide Replaceable, StillSeed;
      stillSeed := {};
      var todo := staged.Keys;
      while todo != {}
        invariant todo <= staged.Keys
        invariant forall p :: p in staged && p !in todo ==> !IsReserved(p) && p !in unsafe
        invariant forall p :: p in stillSeed <==> p in staged && p !in todo && Replaceable(View(), staged, seed, p)
        decreases todo
      {
        var p :| p in todo;
        todo := todo - {p};
        if IsReserved(p) || p in unsafe {
          return false, {};
        }
        if Replaceable(View(), staged, seed, p) {
          stillSeed := stillSeed + {p};
        }
      }
      ok := true;
    }

    /** Whether one path is a sidecar of a database that stays. */
    method IsBlocked(p: Path, staged: Tree, seed: Tree, stillSeed: set<Path>) returns (ok: bool, blocked: bool)
      requires forall q :: q in stillSeed <==> q in staged && Replaceable(View(), staged, seed, q)
      ensures ok <==> !NoBase(p)
      ensures ok ==> (blocked <==> Blocked(View(), staged, seed, p))
      ensures ok ==> (blocked <==> exists db :: SidecarOf(p, db) && Exists(View(), db)
                                               && !(db in staged && StillSeed(View(), seed, db)))
    {
      BlockedIs(View(), staged, seed, p);
      hide SidecarOf, StillSeed;
      blocked := false;
      var k := 0;
      while k < |SIDECARS|
        invariant k <= |SIDECARS|
        invariant forall j :: 0 <= j < k && EndsWith(p.name, SIDECARS[j]) ==> Base(p, SIDECARS[j]).name !in {"", "."}
        invariant blocked <==> (exists j :: 0 <= j < k && EndsWith(p.name, SIDECARS[j])
                                            && Exists(View(), Base(p, SIDECARS[j]))
                                            && !Replaceable(View(), staged, seed, Base(p, SIDECARS[j])))
      {
        if EndsWith(p.name, SIDECARS[k]) {
          var base := Base(p, SIDECARS[k]);
          if base.name == "" || base.name == "." {
            return false, false;
          }
          if Exists(View(), base) && base !in stillSeed {
            blocked := true;
          }
        }
        k := k + 1;
      }
      ok := true;
    }

    /** Decides, before anything is written, which staged files are copied and which are
        reported; the order in which the tree is walked does not matter. */
    method Classify(staged: Tree, seed: Tree, unsafe: set<Path>) returns (ok: bool, pending: seq<Path>, conflicts: seq<Path>)
      ensures ok <==> Acceptable(staged, unsafe)
      ensures ok ==> Divided(staged.Keys, Pending(View(), staged, seed), pending, conflicts)
    {
      hide Replaceable, Blocked, NoBase, IsReserved, Divided;
      ghost var take := Pending(View(), staged, seed);
      pending, conflicts := [], [];
      var stillSeed;
      ok, stillSeed := FindSeeds(staged, seed, unsafe);
      if !ok {
        return;
      }
      var todo := staged.Keys;
      NoneDivided();
      assert staged.Keys - todo == {} && take - todo == {};
      while todo != {}
        invariant todo <= staged.Keys
        invariant forall p :: p in staged && p !in todo ==> !NoBase(p)
        invariant Divided(staged.Keys - todo, take - todo, pending, conflicts)
        decreases todo
      {
        var p :| p in todo;
        var blocked;
        ok, blocked := IsBlocked(p, staged, seed, stillSeed);
        if !ok {
          return;
        }
        assert staged.Keys - (todo - {p}) == staged.Keys - todo + {p};
        var conflict := blocked || (Exists(View(), p) && p !in stillSeed);
        assert p in take <==> !conflict;
        DivideOne(staged.Keys - todo, take - todo, pending, conflicts, p, conflict);
        if conflict {
          assert take - (todo - {p}) == take - todo;
          conflicts := conflicts + [p];
        } else {
          assert take - (todo - {p}) == take - todo + {p};
          pending := pending + [p];
        }
        todo := todo - {p};
      }
      assert staged.Keys - todo == staged.Keys && take - todo == take;
    }

    predicate Valid()
      reads this
    {
      !transaction ==> prepared == map[] && kept == map[]
    }

    method Chance(mayFail: bool) returns (luck: Luck)
      ensures !mayFail ==> luck == Works
    {
      luck := Works;
      if mayFail {
        luck := *;
      }
    }

    /** Copies every pending file into the transaction directory; the host is not touched. */
    method Prepare(pending: seq<Path>, staged: Tree, mayFail: bool) returns (ok: bool)
      requires forall p :: p in pending ==> p in staged
      modifies this`prepared
      ensures ok ==> forall p :: p in pending ==> p in prepared && prepared[p] == staged[p]
      ensures !mayFail ==> ok
    {
      for i := 0 to |pending|
        invariant forall j :: 0 <= j < i ==> pending[j] in prepared && prepared[pending[j]] == staged[pending[j]]
      {
        var luck := Chance(mayFail);
        if luck != Fails {
          prepared := prepared[pending[i] := staged[pending[i]]];
        }
        if luck != Works {
          return false;
        }
      }
      ok := true;
    }

    /** Moves one pending file in: its destination is noted first, the original is moved to
        the backup, and the prepared file takes its place. */
    method CommitOne(dest: Path, written: seq<Written>, mayFail: bool, ghost was: Tree)
      returns (ok: bool, written': seq<Written>)
      requires Undoable(was, files, kept, Dests(written)) && dest !in Dests(written)
      requires dest in prepared && dest !in kept && NotedRight(written, was)
      modifies this`files, this`prepared, this`kept
      ensures Undoable(was, files, kept, Dests(written'))
      ensures ok ==> files == old(files)[dest := old(prepared)[dest]]
      ensures ok ==> Dests(written') == Dests(written) + {dest}
      ensures ok ==> prepared == old(prepared) - {dest} && kept.Keys <= old(kept).Keys + {dest}
      ensures NotedRight(written', was)
      ensures !mayFail ==> ok
    {
      ok, written' := false, written;
      var luck := Chance(mayFail);
      if luck != Works {
        return;
      }
      var backedUp := dest in files;   // dest.exists(): what is pending is absent or a replaceable file
      written' := written + [Written(dest, backedUp)];
      OneMoreDest(written, Written(dest, backedUp));
      if backedUp {
        luck := Chance(mayFail);
        if luck != Fails {
          kept, files := kept[dest := files[dest]], files - {dest};
        }
        if luck != Works {
          return;
        }
      }
      luck := Chance(mayFail);
      if luck != Fails {
        files, prepared := files[dest := prepared[dest]], prepared - {dest};
      }
      ok := luck == Works;
    }

    /** Undoes what was noted, last first.  A refused step is remembered and the others are
        still tried; an interrupt ends it on the spot. */
    method RollBack(written: seq<Written>, mayFail: bool, ghost was: Tree) returns (ok: bool)
      requires Undoable(was, files, kept, Dests(written))
      requires NotedRight(written, was)
      modifies this`files, this`kept
      ensures NothingLost(was, files, kept)
      ensures ok ==> files == was
      ensures !mayFail ==> ok
    {
      hide Undoable, Dests;
      ok := true;
      ghost var stuck: set<Path> := {};
      var k := |written|;
      assert written[..k] == written && Dests(written) + stuck == Dests(written);
      while k > 0
        invariant k <= |written|
        invariant Undoable(was, files, kept, Dests(written[..k]) + stuck)
        invariant ok ==> stuck == {}
        invariant !mayFail ==> ok
      {
        k := k - 1;
        var w := written[k];
        ghost var left := Dests(written[..k]) + stuck;
        assert Dests(written[..k + 1]) + stuck == left + {w.dest} by {
          assert written[..k + 1] == written[..k] + [w];
          OneMoreDest(written[..k], w);
        }
        UndoOne(was, files, kept, left, w.dest);
        var luck := Chance(mayFail);
        if luck != Fails {
          if !w.backedUp {
            files := files - {w.dest};
          } else if w.dest in kept {
            files, kept := files[w.dest := kept[w.dest]], kept - {w.dest};
          }
        } else {
          assert left + {w.dest} == Dests(written[..k]) + (stuck + {w.dest});
          ok, stuck := false, stuck + {w.dest};
        }
        if luck == Interrupted {
          LosesNothing(was, files, kept, left);
          return false;
        }
      }
      LosesNothing(was, files, kept, Dests(written[..0]) + stuck);
      NoDests();
      assert written[..0] == [];
      if ok {
        assert Dests([]) + stuck == {};
        AllUndone(was, files, kept);
      }
    }

    /** _merge_tree_keep_host.  `commitMayFail` covers every step up to the last rename,
        `rollbackMayFail` the undoing ones and a process that dies, `cleanupMayFail` the
        removal of the transaction directory. */
    method MergeTreeKeepHost(staged: Tree, seed: Tree, unsafe: set<Path>,
                             commitMayFail: bool, rollbackMayFail: bool, cleanupMayFail: bool) returns (r: Outcome)
      requires Valid()
      modifies this
      ensures Valid()
      // A leftover transaction, a reserved path or an unsafe destination: nothing happens.
      ensures r.Refused? <==> old(transaction) || !Acceptable(staged, unsafe)
      ensures r.Refused? <==> old(transaction) || exists p :: p in staged && MustNotBeStaged(p, unsafe)
      ensures r.Refused? ==> files == old(files) && transaction == old(transaction) && kept == old(kept)
      // Success: exactly the pending files carry staged bytes, and the rest is reported.
      ensures r.Done? ==> files == Merged(old(View()), staged, seed) && !transaction && Reports(old(View()), staged, seed, r)
      // That is: a host file that is not the seed's bytes stays and is reported when it was staged,
      // a staged file is taken or reported as `Takes` says, and no other file changes.
      ensures r.Done? ==> HostWins(old(View()), staged, seed, files, r.conflicts)
      // Failure: as before, or every original is at its path or in the backup that is kept.
      ensures r.Undone? ==> files == old(files)
      ensures r.Stuck? ==> NothingLost(old(files), files, kept) && transaction
      ensures r.LeftOver? ==> transaction && files == if r.committed then Merged(old(View()), staged, seed) else old(files)
      ensures !commitMayFail ==> !r.Undone? && !r.Stuck? && !(r.LeftOver? && !r.committed)
      ensures !rollbackMayFail ==> !r.Stuck?
      // Without trouble in the cleanup a directory is left only by an interrupt right after it
      // was made, and it is empty.
      ensures r.LeftOver? && !cleanupMayFail ==> commitMayFail && !r.committed && prepared == map[] && kept == map[]
    {
      AcceptableIff(staged, unsafe);
      hide Conflicts, Acceptable, Pending, MustNotBeStaged;
      if transaction {
        return Refused;
      }
      var ok, pending, conflicts := Classify(staged, seed, unsafe);
      if !ok {
        return Refused;
      }
      PendingMerged(View(), staged, seed, pending, conflicts);
      PendingReported(View(), staged, seed, pending, conflicts);
      HostWinsWhenMerged(View(), staged, seed, pending, conflicts);
      hide Divided, Merged, Reports, Installed, HostWins;
      if pending == [] {
        InstallNone(files, staged);
        return Done(0, conflicts);
      }
      r := Transact(pending, conflicts, staged, commitMayFail, rollbackMayFail, cleanupMayFail);
    }

    /** The part that writes: the transaction directory, the commit or its undoing, and the
        removal of the directory. */
    method Transact(pending: seq<Path>, conflicts: seq<Path>, staged: Tree,
                    commitMayFail: bool, rollbackMayFail: bool, cleanupMayFail: bool) returns (r: Outcome)
      requires !transaction && prepared == map[] && kept == map[]
      requires forall p :: p in pending ==> p in staged
      requires forall j, k :: 0 <= j < k < |pending| ==> pending[j] != pending[k]
      modifies this
      ensures !transaction ==> prepared == map[] && kept == map[]
      ensures match r
              case Refused => false
              case Done(copied, reported) =>
                files == Installed(old(files), staged, pending) && copied == |pending| && reported == conflicts && !transaction
              case Undone => files == old(files) && !transaction
              case Stuck => NothingLost(old(files), files, kept) && transaction
              case LeftOver(committed) =>
                transaction && files == if committed then Installed(old(files), staged, pending) else old(files)
      ensures !commitMayFail ==> r.Done? || (r.LeftOver? && r.committed)
      ensures !rollbackMayFail ==> !r.Stuck?
      ensures r.LeftOver? && !cleanupMayFail ==> commitMayFail && !r.committed && prepared == map[] && kept == map[]
    {
      hide Undoable, NotedRight, Dests, Installed;
      var luck := Chance(commitMayFail);
      if luck == Fails {
        return Undone;
      }
      transaction := true;
      if luck == Interrupted {
        return LeftOver(false);   // between mkdir and try
      }
      var committed, written := Commit(pending, staged, commitMayFail);
      if !committed {
        var undone := RollBack(written, rollbackMayFail, old(files));
        if !undone {
          return Stuck;
        }
      }
      luck := Chance(cleanupMayFail);
      if luck != Works {
        return LeftOver(committed);
      }
      transaction, prepared, kept := false, map[], map[];
      r := if committed then Done(|pending|, conflicts) else Undone;
    }

    /** Prepares and then moves in all pending files, in their order. */
    method Commit(pending: seq<Path>, staged: Tree, mayFail: bool) returns (ok: bool, written: seq<Written>)
      requires forall p :: p in pending ==> p in staged
      requires forall j, k :: 0 <= j < k < |pending| ==> pending[j] != pending[k]
      requires prepared == map[] && kept == map[]
      modifies this`files, this`prepared, this`kept
      ensures Undoable(old(files), files, kept, Dests(written)) && NotedRight(written, old(files))
      ensures ok ==> files == Installed(old(files), staged, pending)
      ensures !mayFail ==> ok
    {
      hide Undoable, NotedRight, Installed, Elements, Dests;
      written := [];
      NoDests();
      assert pending[..0] == [] && pending[..|pending|] == pending;
      InstallNone(files, staged);
      StartUndoable(files, kept);
      ok := Prepare(pending, staged, mayFail);
      if !ok {
        return;
      }
      var i := 0;
      while i < |pending|
        invariant i <= |pending|
        invariant Undoable(old(files), files, kept, Dests(written)) && NotedRight(written, old(files))
        invariant Dests(written) == Elements(pending[..i])
        invariant kept.Keys <= Dests(written)
        invariant forall k :: i <= k < |pending| ==> pending[k] in prepared && prepared[pending[k]] == staged[pending[k]]
        invariant files == Installed(old(files), staged, pending[..i])
      {
        var dest := pending[i];
        InstallNext(old(files), staged, pending, i);
        ok, written := CommitOne(dest, written, mayFail, old(files));
        if !ok {
          return;
        }
        i := i + 1;
      }
    }
  }

  function Elements(ps: seq<Path>): set<Path> {
    set p | p in ps
  }

  /** `was` with the staged bytes of `ps`. */
  function Installed(was: Tree, staged: Tree, ps: seq<Path>): Tree
    requires forall p :: p in ps ==> p in staged
  {
    was + (map p | p in ps :: staged[p])
  }

  lemma InstallNone(was: Tree, staged: Tree)
    ensures Installed(was, staged, []) == was && Elements([]) == {}
  {
  }

  lemma InstallOne(was: Tree, staged: Tree, ps: seq<Path>, p: Path)
    requires p in staged && forall q :: q in ps ==> q in staged
    ensures Installed(was, staged, ps + [p]) == Installed(was, staged, ps)[p := staged[p]]
    ensures Elements(ps + [p]) == Elements(ps) + {p}
  {
  }

  lemma InstallNext(was: Tree, staged: Tree, ps: seq<Path>, i: nat)
    requires i < |ps| && forall p :: p in ps ==> p in staged
    requires forall j, k :: 0 <= j < k < |ps| ==> ps[j] != ps[k]
    ensures ps[i] !in Elements(ps[..i]) && Elements(ps[..i + 1]) == Elements(ps[..i]) + {ps[i]}
    ensures Installed(was, staged, ps[..i + 1]) == Installed(was, staged, ps[..i])[ps[i] := staged[ps[i]]]
  {
    hide Installed;
    assert ps[..i + 1] == ps[..i] + [ps[i]];
    InstallOne(was, staged, ps[..i], ps[i]);
  }

  lemma StartUndoable(was: Tree, kept: Tree)
    ensures Undoable(was, was, kept, {}) && NotedRight([], was)
  {
  }

  lemma PendingMerged(h: Host, staged: Tree, seed: Tree, pending: seq<Path>, conflicts: seq<Path>)
    requires Divided(staged.Keys, Pending(h, staged, seed), pending, conflicts)
    ensures forall p :: p in pending ==> p in staged
    ensures Installed(h.files, staged, pending) == Merged(h, staged, seed)
    ensures forall j, k :: 0 <= j < k < |pending| ==> pending[j] != pending[k]
  {
    hide Conflicts;
    assert (map p | p in pending :: staged[p]) == (map p | p in Pending(h, staged, seed) :: staged[p]);
  }

  lemma PendingReported(h: Host, staged: Tree, seed: Tree, pending: seq<Path>, conflicts: seq<Path>)
    requires Divided(staged.Keys, Pending(h, staged, seed), pending, conflicts)
    ensures Reports(h, staged, seed, Done(|pending|, conflicts))
  {
    hide Conflicts;
    PendingCount(staged.Keys, Pending(h, staged, seed), pending, conflicts);
  }

  lemma PendingCount(all: set<Path>, take: set<Path>, pending: seq<Path>, conflicts: seq<Path>)
    requires Divided(all, take, pending, conflicts)
    ensures |take| == |pending|
  {
    assert take == Elements(pending);
    DistinctCount(pending);
  }

  lemma {:induction false} DistinctCount(ps: seq<Path>)
    requires forall j, k :: 0 <= j < k < |ps| ==> ps[j] != ps[k]
    ensures |Elements(ps)| == |ps|
  {
    if ps == [] {
      assert Elements(ps) == {};
    } else {
      DistinctCount(ps[1..]);
      assert Elements(ps) == Elements(ps[1..]) + {ps[0]};
    }
  }

  /** `pending` and `conflicts` list the paths of `all`, each once, divided by `take`. */
  ghost predicate Divided(all: set<Path>, take: set<Path>, pending: seq<Path>, conflicts: seq<Path>) {
    && (forall p :: p in pending <==> p in take)
    && (forall p :: p in conflicts <==> p in all && p !in take)
    && (forall j, k :: 0 <= j < k < |pending| ==> pending[j] != pending[k])
    && (forall j, k :: 0 <= j < k < |conflicts| ==> conflicts[j] != conflicts[k])
    && |pending| + |conflicts| == |all|
  }

  lemma NoneDivided()
    ensures Divided({}, {}, [], [])
  {
  }

  lemma DivideOne(all: set<Path>, take: set<Path>, pending: seq<Path>, conflicts: seq<Path>, p: Path, conflict: bool)
    requires Divided(all, take, pending, conflicts) && p !in all && take <= all
    ensures if conflict then Divided(all + {p}, take, pending, conflicts + [p])
            else Divided(all + {p}, take + {p}, pending + [p], conflicts)
  {
  }
}
