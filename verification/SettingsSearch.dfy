/**
Which files a Django settings module really consists of: the search follows star imports
from the chosen module, breadth first, up to a limit.
*/
module SettingsSearch {
  import opened Wrappers

  /** A dotted name, split at its dots.  A name such as "a..b" has an empty part. */
  type Name = seq<string>

  /** What follows "from" in a star import: leading dots, and the rest split at its dots. */
  datatype Import = Import(dots: nat, rest: Name)

  /** A module file, a package's __init__.py, or neither. */
  datatype Source = ModuleFile(imports: seq<Import>) | PackageFile(imports: seq<Import>) | NoFile

  type Sources = map<seq<string>, Source>

  const MAX_FILES := 40

  /** The path of a name; joining a path drops empty parts. */
  function PathOf(name: Name): seq<string> {
    if name == [] then [] else (if name[0] == "" then [] else [name[0]]) + PathOf(name[1..])
  }

  function SourceOf(sources: Sources, name: Name): Source {
    if PathOf(name) in sources then sources[PathOf(name)] else NoFile
  }

  predicate HasFile(sources: Sources, name: Name) {
    !SourceOf(sources, name).NoFile?
  }

  /** The empty string names nothing: it has no parts, although splitting it gives an empty one. */
  function Parts(name: Name): Name {
    if name == [""] then [] else name
  }

  /** What relative imports are relative to. */
  function Anchor(name: Name, source: Source): Name {
    Parts(if source.PackageFile? || name == [] then name else name[..|name| - 1])
  }

  function Ascended(anchor: Name, levels: nat): Name {
    if levels <= |anchor| then anchor[..|anchor| - levels] else []
  }

  /** The absolute name of an import; an empty one names nothing. */
  function Target(i: Import, anchor: Name): Name {
    if i.dots == 0 then i.rest else Ascended(anchor, i.dots - 1) + i.rest
  }

  function TargetsOf(imports: seq<Import>, anchor: Name): seq<Name> {
    if imports == [] then []
    else
      var last := imports[|imports| - 1];
      TargetsOf(imports[..|imports| - 1], anchor) + if Target(last, anchor) == [] then [] else [Target(last, anchor)]
  }

  lemma TargetIs(i: Import, anchor: Name)
    ensures i.dots == 1 ==> Target(i, anchor) == anchor + i.rest
    ensures i.dots >= 1 && i.rest == [] ==> Target(i, anchor) == Ascended(anchor, i.dots - 1)
  {
    assert anchor[..|anchor|] == anchor;
    if i.dots >= 1 {
      assert Ascended(anchor, i.dots - 1) + [] == Ascended(anchor, i.dots - 1);
    }
  }

  lemma OneMoreTarget(imports: seq<Import>, n: nat, anchor: Name)
    requires n < |imports|
    ensures TargetsOf(imports[..n + 1], anchor)
            == TargetsOf(imports[..n], anchor) + if Target(imports[n], anchor) == [] then [] else [Target(imports[n], anchor)]
  {
    hide Target;
    assert imports[..n + 1][..n] == imports[..n];
  }

  /** The module name an import resolves to, empty when it names nothing. */
  method Resolve(i: Import, anchor: Name) returns (parts: Name)
    ensures parts == Target(i, anchor)
  {
    TargetIs(i, anchor);
    if i.dots == 0 { return i.rest; }
    parts := anchor;
    var ascend := i.dots - 1;
    if ascend > 0 {
      parts := if ascend <= |parts| then parts[..|parts| - ascend] else [];
    }
    if i.rest != [] {
      parts := parts + i.rest;
    }
  }

  /** _settings_star_import_targets */
  method StarImportTargets(imports: seq<Import>, anchor: Name) returns (targets: seq<Name>)
    ensures targets == TargetsOf(imports, anchor)
  {
    hide Target, TargetsOf;
    targets := [];
    NoTargets(anchor);
    for n := 0 to |imports|
      invariant targets == TargetsOf(imports[..n], anchor)
    {
      OneMoreTarget(imports, n, anchor);
      var parts := Resolve(imports[n], anchor);
      if parts != [] {
        targets := targets + [parts];
      }
    }
    assert imports[..|imports|] == imports;
  }

  lemma NoTargets(anchor: Name)
    ensures TargetsOf([], anchor) == []
  {
  }

  /** The names a module imports with a star. */
  function Imports(sources: Sources, name: Name): seq<Name> {
    match SourceOf(sources, name)
    case NoFile => []
    case source => TargetsOf(source.imports, Anchor(name, source))
  }

  // ---- Reachability ---------------------------------------------------------------------------

  predicate Walk(sources: Sources, walk: seq<Name>) {
    && walk != []
    && forall k :: 0 <= k < |walk| - 1 ==> walk[k + 1] in Imports(sources, walk[k])
  }

  ghost predicate Reachable(sources: Sources, start: Name, name: Name) {
    exists walk :: Walk(sources, walk) && walk[0] == start && walk[|walk| - 1] == name
  }

  lemma ReachesItself(sources: Sources, start: Name)
    ensures Reachable(sources, start, start)
  {
    assert Walk(sources, [start]);
    assert [start][0] == start && [start][|[start]| - 1] == start;
  }

  lemma ReachesImports(sources: Sources, start: Name, name: Name, target: Name)
    requires Reachable(sources, start, name) && target in Imports(sources, name)
    ensures Reachable(sources, start, target)
  {
    hide Imports;
    var walk :| Walk(sources, walk) && walk[0] == start && walk[|walk| - 1] == name;
    var longer := walk + [target];
    assert Walk(sources, longer);
    assert longer[0] == start && longer[|longer| - 1] == target;
  }

  /** A set of names that imports lead out of nowhere. */
  ghost predicate Closed(sources: Sources, names: set<Name>) {
    forall n, t :: n in names && t in Imports(sources, n) ==> t in names
  }

  lemma {:induction false} ClosedHoldsWalk(sources: Sources, names: set<Name>, walk: seq<Name>)
    requires Closed(sources, names) && Walk(sources, walk) && walk[0] in names
    ensures walk[|walk| - 1] in names
    decreases |walk|
  {
    hide Imports;
    if |walk| > 1 {
      var rest := walk[1..];
      assert walk[0 + 1] in Imports(sources, walk[0]);
      assert Walk(sources, rest) by {
        forall k | 0 <= k < |rest| - 1 ensures rest[k + 1] in Imports(sources, rest[k]) {
          assert walk[(k + 1) + 1] in Imports(sources, walk[k + 1]);
        }
      }
      ClosedHoldsWalk(sources, names, rest);
    }
  }

  lemma ClosedHoldsAll(sources: Sources, names: set<Name>, start: Name, name: Name)
    requires Closed(sources, names) && start in names && Reachable(sources, start, name)
    ensures name in names
  {
    hide Imports, Closed;
    var walk :| Walk(sources, walk) && walk[0] == start && walk[|walk| - 1] == name;
    ClosedHoldsWalk(sources, names, walk);
  }

  // ---- The search -------------------------------------------------------------------------------

  /** The loop that queues the targets not seen yet. */
  method Enqueue(targets: seq<Name>, seen: set<Name>, queue: seq<Name>) returns (queue': seq<Name>)
    ensures forall n :: n in queue' <==> n in queue || (n in targets && n !in seen)
  {
    queue' := queue;
    for i := 0 to |targets|
      invariant forall n :: n in queue' <==> n in queue || (n in targets[..i] && n !in seen)
    {
      if targets[i] !in seen {
        queue' := queue' + [targets[i]];
      }
    }
    assert targets[..|targets|] == targets;
  }

  /** The search has seen `seen` and still has to look at `queue`. */
  ghost predicate Searching(sources: Sources, start: Name, seen: set<Name>, queue: seq<Name>) {
    && (forall n :: n in seen || n in queue ==> Reachable(sources, start, n))
    && (start in seen || start in queue)
    && (forall n, t :: n in seen && t in Imports(sources, n) ==> t in seen || t in queue)
  }

  lemma SearchStarts(sources: Sources, start: Name)
    ensures Searching(sources, start, {}, [start])
  {
    hide Reachable, Imports;
    ReachesItself(sources, start);
  }

  lemma SearchGoesOn(sources: Sources, start: Name, seen: set<Name>, queue: seq<Name>, targets: seq<Name>, queue': seq<Name>)
    requires queue != [] && Searching(sources, start, seen, queue) && targets == Imports(sources, queue[0])
    requires forall n :: n in queue' <==> n in queue[1..] || (n in targets && n !in seen + {queue[0]})
    ensures Searching(sources, start, seen + {queue[0]}, queue')
  {
    hide Reachable, Imports;
    assert queue == [queue[0]] + queue[1..];
    forall n | n in targets ensures Reachable(sources, start, n) {
      ReachesImports(sources, start, queue[0], n);
    }
  }

  lemma SearchSkips(sources: Sources, start: Name, seen: set<Name>, queue: seq<Name>)
    requires queue != [] && Searching(sources, start, seen, queue) && queue[0] in seen
    ensures Searching(sources, start, seen, queue[1..])
  {
    hide Reachable, Imports;
    assert queue == [queue[0]] + queue[1..];
  }

  lemma SearchEnds(sources: Sources, start: Name, seen: set<Name>)
    requires Searching(sources, start, seen, [])
    ensures forall n :: n in seen <==> Reachable(sources, start, n)
  {
    hide Reachable, Imports;
    forall n | Reachable(sources, start, n) ensures n in seen {
      ClosedHoldsAll(sources, seen, start, n);
    }
  }

  lemma SeenIsReachable(sources: Sources, start: Name, seen: set<Name>, queue: seq<Name>)
    requires Searching(sources, start, seen, queue)
    ensures forall n :: n in seen ==> Reachable(sources, start, n)
  {
    hide Reachable, Imports;
  }

  /** _settings_module_files.  It ends even when modules import each other; what it returns is
      reachable, has a file, and comes once; and when nothing is left to look at, it is all
      that is reachable and has a file. */
  method ModuleFiles(sources: Sources, start: Name) returns (files: seq<Name>, left: seq<Name>)
    ensures |files| <= MAX_FILES && Distinct(files)
    ensures forall n :: n in files ==> HasFile(sources, n) && Reachable(sources, start, n)
    ensures left == [] ==> forall n :: n in files <==> HasFile(sources, n) && Reachable(sources, start, n)
    ensures |files| < MAX_FILES ==> left == []
  {
    hide Reachable, HasFile, Searching, SourceOf, TargetsOf, Imports;
    files := [];
    var seen: set<Name> := {};
    var queue := [start];
    SearchStarts(sources, start);
    while queue != [] && |files| < MAX_FILES
      invariant |files| <= MAX_FILES && Distinct(files)
      invariant forall n :: n in files <==> n in seen && HasFile(sources, n)
      invariant Searching(sources, start, seen, queue)
      decreases MAX_FILES - |files|, |queue|
    {
      var name := queue[0];
      ghost var was, before := queue, seen;
      queue := queue[1..];
      if name in seen {
        SearchSkips(sources, start, seen, was);
        continue;
      }
      seen := seen + {name};
      var source := SourceOf(sources, name);
      SourceMeans(sources, name);
      if source.NoFile? {
        SearchGoesOn(sources, start, before, was, [], queue);
        continue;
      }
      files := files + [name];
      var targets := StarImportTargets(source.imports, Anchor(name, source));
      queue := Enqueue(targets, seen, queue);
      SearchGoesOn(sources, start, before, was, targets, queue);
    }
    left := queue;
    SeenIsReachable(sources, start, seen, queue);
    if left == [] {
      SearchEnds(sources, start, seen);
    }
  }

  lemma SourceMeans(sources: Sources, name: Name)
    ensures var source := SourceOf(sources, name);
            && (HasFile(sources, name) <==> !source.NoFile?)
            && Imports(sources, name) == if source.NoFile? then [] else TargetsOf(source.imports, Anchor(name, source))
  {
  }

  // ---- One file under two names -----------------------------------------------------------------

  predicate NoEmptyPart(name: Name) {
    forall k :: 0 <= k < |name| ==> name[k] != ""
  }

  lemma {:induction false} PathIsName(name: Name)
    ensures NoEmptyPart(name) <==> PathOf(name) == name
    ensures |PathOf(name)| <= |name|
  {
    if name != [] {
      PathIsName(name[1..]);
      assert name == [name[0]] + name[1..];
      if NoEmptyPart(name) { assert NoEmptyPart(name[1..]); }
    }
  }

  /** Names without empty parts that are different have different files. */
  lemma DifferentNamesDifferentFiles(a: Name, b: Name)
    requires NoEmptyPart(a) && NoEmptyPart(b) && a != b
    ensures PathOf(a) != PathOf(b)
  {
    PathIsName(a);
    PathIsName(b);
  }

  /** A module that imports itself under a name with an empty part, such as "a.", is reached
      under both names: the search returns its file twice. */
  lemma OneFileUnderTwoNames(a: string)
    requires a != ""
    ensures var sources := map[[a] := ModuleFile([Import(0, [a, ""])])];
            && Reachable(sources, [a], [a]) && Reachable(sources, [a], [a, ""])
            && HasFile(sources, [a]) && HasFile(sources, [a, ""])
            && PathOf([a]) == PathOf([a, ""]) && [a] != [a, ""]
  {
    var sources: Sources := map[[a] := ModuleFile([Import(0, [a, ""])])];
    var imports := [Import(0, [a, ""])];
    assert [a][1..] == [] && [a, ""][1..] == [""] && [""][1..] == [];
    assert PathOf([a]) == [a] && PathOf([a, ""]) == [a];
    assert imports[..0] == [];
    assert [a, ""] in Imports(sources, [a]);
    hide Imports, Reachable, PathOf;
    ReachesItself(sources, [a]);
    ReachesImports(sources, [a], [a], [a, ""]);
  }
}
