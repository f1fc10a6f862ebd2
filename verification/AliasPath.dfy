/**
The site path of a script reference, and the same path with an instance's alias in front.
*/
module AliasPath {
  import opened Wrappers
  import opened Text
  import opened Urls
  import opened SitePath
  import opened UrlJoin

  /** The site path of a same-origin reference. */
  function Clean(ref: string): string {
    var path := UrlSplit(Joined(ref)).path;
    Folded(if path == "" then "/" else path)
  }

  const INLINE := ["data:", "blob:", "javascript:"]

  /** classify_resource_ref with base "/": the site path, None for every other kind. */
  function Classified(src: string): Option<string> {
    var raw := Stripped(src);
    if raw == "" || (exists k :: 0 <= k < |INLINE| && StartsWith(Lower(raw), INLINE[k])) then None else
    var split := UrlSplit(raw);
    if split.scheme != "" || split.netloc != "" then None else Some(Clean(split.path))
  }

  /** s.strip("/") */
  function Unslashed(s: string): string
    decreases |s|
  {
    if s == "" then ""
    else if s[0] == '/' then Unslashed(s[1..])
    else if s[|s| - 1] == '/' then Unslashed(s[..|s| - 1])
    else s
  }

  /** _resolve_alias_aware_script_urls: the backend path and the gateway path. */
  function AliasAware(src: string, alias: Option<string>): (Option<string>, Option<string>) {
    var clean := Classified(src);
    if clean.None? then (None, None)
    else if alias.None? || Unslashed(alias.value) == "" then (clean, None)
    else
      var backend := Backend(clean.value, "/" + Unslashed(alias.value));
      (Some(backend), Some("/" + Unslashed(alias.value) + backend))
  }

  function Backend(clean: string, prefix: string): string {
    if clean == prefix || StartsWith(clean, prefix + "/") then
      var rest := clean[|prefix|..];
      if rest == "" then "/" else if rest[0] == '/' then rest else "/" + rest
    else clean
  }

  // ---- Where a reference leads -----------------------------------------------------------------

  lemma EmptySegments()
    ensures Segments("") == ["", ""]
  {
    OnePart("");
    hide Parts;
    assert ["", ""] + [""] == ["", "", ""] && ["", "", ""][1..2] == [""] && [""][..0] == [];
    assert NonEmpty([""]) == [];
  }

  lemma EmptyResolves()
    ensures Resolved(["", ""]) == ["", ""]
  {
    hide Resolved;
    var two := ["", ""];
    assert two[..1] == [""] && two[..1][..0] == [];
    NoSegments();
    OneMore(two[..1]);
    OneMore(two);
  }

  lemma EmptyJoins()
    ensures JoinedPath("") == "/"
  {
    hide *;
    EmptySegments();
    EmptyResolves();
    TwoSlashed("", "");
    AppendNothing(["", ""]);
    EmptyStem();
    JoinsEmpty();
  }

  lemma JoinsEmpty()
    requires Segments("") == ["", ""] && Resolved(["", ""]) == ["", ""] && Slashed(["", ""]) == "" + "/" + ""
    ensures JoinedPath("") == "/"
  {
    hide Segments, Resolved, Slashed;
    AppendNothing(["", ""]);
    assert "" + "/" + "" == "/";
  }

  /** What is joined again is a joined path, with the parameters. */
  lemma RejoinedIs(ref: string)
    ensures var (path, params) := SplitParams(ref);
            Rejoined(ref) == JoinedPath(path) + if params == "" then "" else ";" + params
  {
    EmptyJoins();
    hide JoinedPath, SplitParams;
    AppendNothing("/");
  }

  function Letters(s: string): nat {
    if s == "" then 0 else (if s[0] == '/' then 0 else 1) + Letters(s[1..])
  }

  function Total(parts: seq<string>): nat {
    if parts == [] then 0 else |parts[0]| + Total(parts[1..])
  }

  lemma {:induction false} LettersAppend(s: string, t: string)
    ensures Letters(s + t) == Letters(s) + Letters(t)
    decreases |s|
  {
    if s == "" {
      assert s + t == t;
    } else {
      assert (s + t)[1..] == s[1..] + t;
      LettersAppend(s[1..], t);
    }
  }

  lemma {:induction false} AllLetters(s: string)
    requires '/' !in s
    ensures Letters(s) == |s|
    decreases |s|
  {
    if s != "" { AllLetters(s[1..]); }
  }

  lemma {:induction false} TotalAppend(a: seq<string>, b: seq<string>)
    ensures Total(a + b) == Total(a) + Total(b)
    decreases |a|
  {
    if a == [] {
      assert a + b == b;
    } else {
      assert (a + b)[1..] == a[1..] + b;
      TotalAppend(a[1..], b);
    }
  }

  lemma TotalOne(s: string)
    ensures Total([s]) == |s|
  {
    assert [s][1..] == [];
  }

  lemma {:induction false} PartsHaveTheLetters(s: string)
    ensures Total(Parts(s)) == Letters(s)
    decreases |s|
  {
    hide *;
    if '/' in s {
      var first, rest := SplitAtFirst(s);
      FirstPart(first, rest);
      PartsHaveTheLetters(rest);
      TotalAppend([first], Parts(rest));
      TotalOne(first);
      LettersAppend(first + "/", rest);
      LettersAppend(first, "/");
      AllLetters(first);
      SlashIsNoLetter();
    } else {
      OnePart(s);
      TotalOne(s);
      AllLetters(s);
    }
  }

  lemma SlashIsNoLetter()
    ensures Letters("/") == 0 && Letters("") == 0
  {
  }

  /** Folding adds no letter, and without dots it loses none. */
  lemma {:induction false} WalkedLetters(parts: seq<string>)
    ensures Total(Walked([], parts)) <= Total(parts)
    ensures NoDots(parts) ==> Total(Walked([], parts)) == Total(parts)
    decreases |parts|
  {
    hide Total;
    if parts != [] {
      var n := |parts| - 1;
      WalkedLetters(parts[..n]);
      assert parts == parts[..n] + [parts[n]];
      TotalAppend(parts[..n], [parts[n]]);
      TotalOne(parts[n]);
      var before := Walked([], parts[..n]);
      TotalAppend(before, [parts[n]]);
      if before != [] {
        assert before == before[..|before| - 1] + [before[|before| - 1]];
        TotalAppend(before[..|before| - 1], [before[|before| - 1]]);
      }
      assert NoDots(parts) ==> !IsDots(parts[n]);
    }
  }

  lemma PlaceLetters(path: string)
    ensures Total(Place(path)) <= Letters(path)
    ensures NoDots(Parts(path)) ==> Total(Place(path)) == Letters(path)
  {
    hide *;
    PlaceIs(path);
    WalkedLetters(Parts(path));
    PartsHaveTheLetters(path);
  }

  /** A reference that is not kept loses letters. */
  lemma NotKeptLosesLetters(ref: string)
    requires Lacks(ref, ENDINGS) && !Kept(ref)
    ensures Letters(ReadPath(ref)) < Letters(Rejoined(ref))
  {
    hide *;
    var joined, path := Rejoined(ref), UrlSplit(Joined(ref)).path;
    KeptIff(ref);
    ReadsJoined(ref);
    ReadPathIs(ref);
    SlashIsNoLetter();
    RejoinedIsSomething(ref);
    KeptWhenStart(ref);
    EndIs(joined, path);
    LettersAppend(joined[..|joined| - |path|], path);
    FrontHasLetter(joined, |joined| - |path|);
  }

  lemma RejoinedIsSomething(ref: string)
    ensures Rejoined(ref) != ""
  {
    hide *;
    RejoinedIs(ref);
    SomethingJoined(SplitParams(ref).0);
    NotEmptyAppended(JoinedPath(SplitParams(ref).0), if SplitParams(ref).1 == "" then "" else ";" + SplitParams(ref).1);
  }

  lemma NotEmptyAppended(s: string, t: string)
    requires s != ""
    ensures s + t != ""
  {
  }

  lemma KeptWhenStart(ref: string)
    requires !Kept(ref)
    ensures !StartsWith(Rejoined(ref), "/")
  {
    hide Rejoined, Bared;
  }

  lemma FrontHasLetter(s: string, n: nat)
    requires n <= |s| && s != "" && !StartsWith(s, "/")
    ensures n > 0 ==> Letters(s[..n]) > 0
    ensures n == 0 ==> s[n..] == s
  {
    assert s[..1] == [s[0]];
    if n > 0 { assert s[..n][0] == s[0]; }
  }

  /** Segments with the parameters of the last one, which an open end has for itself. */
  function WithParameters(segs: seq<string>, path: string, params: string): seq<string> {
    if params == "" then segs
    else if OpenEnd(path) then segs + [";" + params]
    else (if segs == [] then [] else segs[..|segs| - 1]) + [LastOf(path) + (";" + params)]
  }

  /** One more step at the end of a path, in its last part. */
  lemma PlaceGrows(x: string, more: string)
    requires '/' !in more && more != "" && Ordinary(LastOf(x) + more)
    ensures Place(x + more) == Walked([], Parts(x)[..|Parts(x)| - 1]) + [LastOf(x) + more]
    ensures !EndsWith(x + more, "/")
  {
    PartsGrow(x, more);
    hide Parts, Walked, LastOf;
    var last, front := LastOf(x) + more, Parts(x)[..|Parts(x)| - 1];
    WalksOn([], front, [last]);
    OneStep(Walked([], front), last);
    var t := x + more;
    assert t[|t| - 1] == more[|more| - 1] && more[|more| - 1] in more;
    assert t[|t| - 1..] == [t[|t| - 1]];
  }

  /** Where the parts before the last lead. */
  lemma FrontPlace(x: string)
    ensures var front := Walked([], Parts(x)[..|Parts(x)| - 1]);
            Place(x) == Stepped(front, LastOf(x))
  {
    hide *;
    PlaceIs(x);
    SomeParts(x);
    OneMore(Parts(x));
  }

  lemma StepBack(front: seq<string>, last: string, place: seq<string>)
    requires place == Stepped(front, last) && (last == "" || Ordinary(last))
    ensures front == if last == "" then place else place[..|place| - 1]
    ensures last != "" ==> place != [] && place[|place| - 1] == last
  {
  }

  /** What is joined again leads where urljoin's way leads, with the parameters. */
  lemma RejoinedLeads(ref: string)
    ensures var (path, params) := SplitParams(ref);
            && Place(Rejoined(ref)) == WithParameters(LeadsTo(path), path, params)
            && (EndsWith(Rejoined(ref), "/") <==> params == "" && OpenEnd(path))
            && NoDots(Parts(Rejoined(ref)))
  {
    hide *;
    var (path, params) := SplitParams(ref);
    var joined := JoinedPath(path);
    RejoinedIs(ref);
    RejoinedEnd(ref);
    JoinedPathLeads(path);
    WithParametersIs(LeadsTo(path), path, params);
    if params == "" {
      AppendNothing(joined);
    } else {
      PathLacksParams(ref);
      MoreIsSomething(params, joined);
      LastIsNoDots(joined);
      EmptyStem();
      NoSemicolon(path);
      WithParams(LastOf(joined), params);
      PlaceGrows(joined, ";" + params);
      FrontPlace(joined);
      SomethingJoined(path);
      OrdinaryOrNot(LastOf(joined));
      StepBack(Walked([], Parts(joined)[..|Parts(joined)| - 1]), LastOf(joined), LeadsTo(path));
      NothingAppended(";" + params);
    }
  }

  lemma NothingAppended(s: string)
    ensures "" + s == s
  {
  }

  lemma NoSemicolon(path: string)
    requires ';' !in LastOf(path)
    ensures ';' !in (if OpenEnd(path) then "" else LastOf(path))
  {
    hide LastOf;
  }

  lemma WithParametersIs(segs: seq<string>, path: string, params: string)
    ensures WithParameters(segs, path, params)
            == if params == "" then segs else if OpenEnd(path) then segs + [";" + params]
               else (if segs == [] then [] else segs[..|segs| - 1]) + [LastOf(path) + (";" + params)]
  {
    hide OpenEnd, LastOf;
  }

  /** Parameters tell apart the places they are added to. */
  lemma WithParametersDiffer(a: seq<string>, b: seq<string>, path: string, params: string)
    requires OpenEnd(path) || (a != [] && b != [] && a[|a| - 1] == b[|b| - 1])
    ensures WithParameters(a, path, params) == WithParameters(b, path, params) <==> a == b
  {
    hide *;
    WithParametersIs(a, path, params);
    WithParametersIs(b, path, params);
    SameFronts(a, b, ";" + params);
    if !OpenEnd(path) {
      SameFronts(a[..|a| - 1], b[..|b| - 1], LastOf(path) + (";" + params));
      assert a == a[..|a| - 1] + [a[|a| - 1]] && b == b[..|b| - 1] + [b[|b| - 1]];
    }
  }

  lemma SameFronts<T>(a: seq<T>, b: seq<T>, last: T)
    ensures a + [last] == b + [last] <==> a == b
  {
    if a + [last] == b + [last] {
      assert (a + [last])[..|a|] == a && (b + [last])[..|b|] == b;
    }
  }

  /** A path that does not end open ends with its last part, joined or folded. */
  lemma SameLast(path: string)
    ensures OpenEnd(path) ||
            (var (a, b) := (LeadsTo(path), Place(path)); a != [] && b != [] && a[|a| - 1] == b[|b| - 1])
  {
    hide *;
    var joined := JoinedPath(path);
    OpenEndIs(path);
    OrdinaryOrNot(LastOf(path));
    if !OpenEnd(path) {
      JoinedPathLeads(path);
      ClosedEnd(path);
      ClosedEnd(joined);
    }
  }

  /** A same-origin reference leads where urljoin leads, its parameters kept and with a slash at
      the end when its last part is empty, "." or "..", exactly when it is kept.  And then that
      is where its path leads from the root exactly when the path is relative, or has been at
      the root since every ".." that took an empty segment. */
  lemma CleanLeadsIff(ref: string)
    requires Lacks(ref, ENDINGS)
    ensures var (path, params) := SplitParams(ref);
            var slash := params == "" && OpenEnd(path);
            && (Clean(ref) == Rendered(WithParameters(LeadsTo(path), path, params), slash) <==> Kept(ref))
            && (Kept(ref) ==>
                  (Clean(ref) == Rendered(WithParameters(Place(path), path, params), slash) <==>
                     !StartsWith(path, "/") || MadeGood(Parts(path))))
  {
    hide *;
    var (path, params) := SplitParams(ref);
    var slash := params == "" && OpenEnd(path);
    var joined, read := Rejoined(ref), ReadPath(ref);
    KeptIff(ref);
    RejoinedIsSomething(ref);
    CleanIs(ref);
    ReadPathIs(ref);
    RejoinedLeads(ref);
    FoldedIs(read);
    LeadsToPlaceIff(path);
    SameLast(path);
    WithParametersDiffer(LeadsTo(path), Place(path), path, params);
    PlaceIsOrdinary(read);
    PlaceIsOrdinary(joined);
    RenderedPlace(Place(joined), slash);
    RenderedPlace(Place(read), EndsWith(read, "/"));
    if Kept(ref) {
      ParametersOrdinary(ref);
      RenderedPlace(WithParameters(Place(path), path, params), slash);
    } else {
      NotKeptLosesLetters(ref);
      PlaceLetters(read);
      PlaceLetters(joined);
    }
  }

  lemma ParametersOrdinary(ref: string)
    ensures var (path, params) := SplitParams(ref); AllOrdinary(WithParameters(Place(path), path, params))
  {
    hide *;
    var (path, params) := SplitParams(ref);
    PathLacksParams(ref);
    PlaceIsOrdinary(path);
    WithParametersIs(Place(path), path, params);
    OpenEndIs(path);
    EmptyStem();
    if params != "" {
      WithParams(if OpenEnd(path) then "" else LastOf(path), params);
      NothingAppended(";" + params);
      SomeParts(path);
      LastHasNoSlash(path);
      MoreIsSomething(params, path);
      OrdinaryFront(Place(path), (if OpenEnd(path) then "" else LastOf(path)) + (";" + params));
    }
  }

  lemma LastHasNoSlash(path: string)
    ensures '/' !in LastOf(path)
  {
    hide Parts;
  }

  lemma OrdinaryFront(segs: seq<string>, last: string)
    requires AllOrdinary(segs) && Ordinary(last)
    ensures '/' !in last ==> AllOrdinary(segs + [last]) && (segs != [] ==> AllOrdinary(segs[..|segs| - 1] + [last]))
    ensures '/' !in last ==> AllOrdinary([] + [last])
  {
  }

  lemma CleanIs(ref: string)
    ensures Clean(ref) == Folded(ReadPath(ref))
  {
    hide UrlSplit, Joined, Folded;
  }

  lemma ReadPathIs(ref: string)
    ensures ReadPath(ref) == if UrlSplit(Joined(ref)).path == "" then "/" else UrlSplit(Joined(ref)).path
  {
    hide UrlSplit, Joined;
  }

  /** The path that is folded. */
  function ReadPath(ref: string): string {
    var path := UrlSplit(Joined(ref)).path;
    if path == "" then "/" else path
  }

  /** Two slashes and "..": the code keeps the part in front of them. */
  lemma EmptySegmentStays()
    ensures Clean("/a//../b") == "/a/b" && Folded("/a//../b") == "/b"
  {
    var ref := "/a//../" + "b";
    TakenRef(ref);
    assert ref == "/a//../b";
    hide *;
    EmptySegmentIsTaken("a", "b");
    RejoinedIs(ref);
    AppendNothing(JoinedPath(ref));
    StartsRooted(ref);
    assert Kept(ref) by { KeptWhenRooted(ref); }
    CleanLeadsIff(ref);
    FoldedIs(ref);
    RenderedNames();
  }

  lemma KeptWhenRooted(ref: string)
    requires StartsWith(Rejoined(ref), "/")
    ensures Kept(ref)
  {
    hide Rejoined;
  }

  lemma TakenRef(ref: string)
    requires ref == "/a//../" + "b"
    ensures Lacks(ref, ENDINGS) && SplitParams(ref) == (ref, "") && !EndsWith(ref, "/") && !OpenEnd(ref)
    ensures ref == "/" + "a" + "//../" + "b" && Ordinary("a") && Ordinary("b") && '/' !in "a" && '/' !in "b"
  {
    assert Find("b", ";") == 1;
    ParamsOf("/a//../", "b");
    LastPartIs("/a//../", "b");
    LastOfIs(ref);
    Behind("/a//../", "b");
    assert ref[|ref| - 1..] == "b";
    hide Parts, SplitParams, LastPart;
  }

  lemma StartsRooted(s: string)
    ensures StartsWith("/" + "a" + "/" + "b", "/")
  {
    assert ("/" + "a" + "/" + "b")[..1] == "/";
  }

  lemma RenderedNames()
    ensures Rendered(["a", "b"], false) == "/a/b" && Rendered(["b"], false) == "/b"
  {
    assert ["a", "b"][1..] == ["b"];
  }

  /** The parameters of a path with a stem and parameters in its last part. */
  lemma ParamsOf(p: string, q: string)
    requires '/' !in q && (p == "" || p[|p| - 1] == '/')
    ensures var n := Find(q, ";");
            SplitParams(p + q) == if n == |q| then (p + q, "") else (p + q[..n], q[n + 1..])
  {
    hide *;
    LastPartIs(p, q);
    var s, n := p + q, Find(q, ";");
    Behind(p, q);
    SplitParamsIs(s, |p|, q);
    if n < |q| {
      Before(p, q, n);
      After(p, q, n + 1);
    }
  }

  lemma Before(p: string, q: string, n: nat)
    requires n <= |q|
    ensures (p + q)[..|p| + n] == p + q[..n]
  {
  }

  lemma After(p: string, q: string, n: nat)
    requires n <= |q|
    ensures (p + q)[|p| + n..] == q[n..]
  {
  }

  lemma SplitParamsIs(path: string, n: nat, last: string)
    requires n == LastPart(path) && path[n..] == last
    ensures var m := n + Find(last, ";");
            SplitParams(path) == if m == |path| then (path, "") else (path[..m], path[m + 1..])
  {
    hide LastPart, Find;
  }

  /** The last part of a reference's path has no semicolon. */
  lemma PathLacksParams(ref: string)
    ensures ';' !in LastOf(SplitParams(ref).0) && '/' !in SplitParams(ref).1
  {
    var n := LastPart(ref);
    var p, q := ref[..n], ref[n..];
    assert ref == p + q;
    hide LastPart;
    ParamsOf(p, q);
    var k := Find(q, ";");
    assert q[..|q|] == q;
    assert ';' !in q[..k];
    hide Find, SplitParams;
    LastPartIs(p, q[..k]);
    LastOfIs(p + q[..k]);
    Behind(p, q[..k]);
  }

  // ---- Cleaning again ------------------------------------------------------------------------------

  /** A last segment that cleaning leaves alone: no parameters, or some after a stem that is
      not dots. */
  predicate GoodEnd(seg: string) {
    var n := Find(seg, ";");
    n == |seg| || (n < |seg| - 1 && !IsDots(seg[..n]))
  }

  /** The form of a cleaned path. */
  predicate Settled(c: string) {
    var segs := Place(c);
    && c == Rendered(segs, EndsWith(c, "/"))
    && (EndsWith(c, "/") || (segs != [] && GoodEnd(segs[|segs| - 1])))
  }

  lemma NoParams(seg: string)
    requires ';' !in seg
    ensures GoodEnd(seg)
  {
    FindIs(seg, ";", |seg|);
  }

  lemma WithParams(stem: string, params: string)
    requires ';' !in stem && !IsDots(stem) && params != ""
    ensures GoodEnd(stem + (";" + params)) && Ordinary(stem + (";" + params))
  {
    var seg := stem + (";" + params);
    FindIs(seg, ";", |stem|);
    assert seg[..|stem|] == stem;
    assert seg[|stem|] == ';' && ';' !in "" && ';' !in "." && ';' !in "..";
  }

  /** The parts that are joined again: no dots, and a last one that is good. */
  lemma RejoinedEnd(ref: string)
    ensures NoDots(Parts(Rejoined(ref))) && GoodEnd(LastOf(Rejoined(ref)))
    ensures var (path, params) := SplitParams(ref);
            LastOf(Rejoined(ref))
            == (if OpenEnd(path) then "" else LastOf(path)) + (if params == "" then "" else ";" + params)
  {
    hide *;
    var (path, params) := SplitParams(ref);
    PathLacksParams(ref);
    RejoinedIs(ref);
    JoinedPathLeads(path);
    var joined := JoinedPath(path);
    var last := LastOf(joined);
    var more := if params == "" then "" else ";" + params;
    SomeParts(joined);
    LastIsNoDots(joined);
    EmptyStem();
    if params == "" {
      AppendNothing(joined);
      AppendNothing(last);
      NoParams(last);
    } else {
      MoreIsSomething(params, joined);
      PartsGrow(joined, more);
      WithParams(last, params);
      SomeParts(joined + more);
      OrdinaryLast(Parts(joined), last + more);
    }
  }

  lemma LastIsNoDots(path: string)
    requires NoDots(Parts(path))
    ensures !IsDots(LastOf(path)) && '/' !in LastOf(path)
  {
    hide Parts;
  }

  lemma OrdinaryLast(parts: seq<string>, last: string)
    requires parts != [] && NoDots(parts) && Ordinary(last)
    ensures '/' !in last ==> NoDots(parts[..|parts| - 1] + [last])
    ensures (parts[..|parts| - 1] + [last])[|parts| - 1] == last
  {
  }

  lemma EmptyStem()
    ensures ';' !in "" && !IsDots("")
  {
  }

  lemma MoreIsSomething(params: string, x: string)
    ensures ";" + params != "" && '/' !in "" && x + (";" + params) != "" && ('/' !in params ==> '/' !in ";" + params)
  {
  }

  /** The reference climbs over the root onto its last segment, which has parameters, and of
      which a dot or two are left without the blanks and the scheme in front. */
  predicate UncoversDots(ref: string) {
    var (path, params) := SplitParams(ref);
    params != "" && '/' !in Rejoined(ref) && IsDots(Bared(LastOf(path)))
  }

  lemma {:induction false} UncontrolledAppends(s: string, t: string)
    requires t != "" && t[0] > ' '
    ensures Uncontrolled(s + t) == Uncontrolled(s) + t
    decreases |s|
  {
    if s == "" {
      assert s + t == t;
    } else if s[0] <= ' ' {
      assert (s + t)[1..] == s[1..] + t;
      UncontrolledAppends(s[1..], t);
    }
  }

  lemma SchemeAppends(u: string, t: string)
    requires ';' !in u && t != "" && t[0] == ';'
    ensures HasScheme(u + t) <==> HasScheme(u)
    ensures HasScheme(u) ==> Find(u + t, ":") == Find(u, ":") < |u|
  {
    var n := Find(u, ":");
    hide Find;
    if n < |u| {
      FindIs(u + t, ":", n);
      SameFront(u, t, n);
    } else {
      assert u[..n] == u;
      NoSchemePast(u + t, |u|);
    }
  }

  lemma SameFront(u: string, t: string, n: nat)
    requires n < |u|
    ensures (u + t)[..n] == u[..n] && (u + t)[0] == u[0]
  {
  }

  /** A semicolon before any colon: no scheme. */
  lemma NoSchemePast(s: string, m: nat)
    requires m < |s| && s[m] == ';' && ':' !in s[..m]
    ensures !HasScheme(s)
  {
    var n := Find(s, ":");
    assert forall k :: 0 <= k < m ==> s[k] == s[..m][k];
    assert !IsSchemeChar(s[m]);
    hide Find;
  }

  lemma BaredAppends(s: string, t: string)
    requires ';' !in s && t != "" && t[0] == ';'
    ensures Bared(s + t) == Bared(s) + t && ';' !in Bared(s)
  {
    UncontrolledAppends(s, t);
    UncontrolledIsEnd(s);
    var u := Uncontrolled(s);
    assert ';' !in u by { assert u == s[|s| - |u|..]; }
    SchemeAppends(u, t);
    hide Uncontrolled, HasScheme, Find;
    if HasScheme(u) {
      var n := Find(u, ":") + 1;
      assert (u + t)[n..] == u[n..] + t;
    }
  }

  lemma BaredLacks(s: string)
    requires ';' !in s
    ensures ';' !in Bared(s)
  {
    BaredIsEnd(s);
    hide Bared;
  }

  lemma DotsWithParams(stem: string, params: string)
    requires ';' !in stem && params != ""
    ensures GoodEnd(stem + (";" + params)) <==> !IsDots(stem)
  {
    var seg := stem + (";" + params);
    FindIs(seg, ";", |stem|);
    assert seg[..|stem|] == stem;
  }

  lemma UncoversDotsIff(ref: string)
    ensures UncoversDots(ref) <==> '/' !in Rejoined(ref) && !GoodEnd(Bared(Rejoined(ref)))
  {
    hide *;
    UncoversDotsIs(ref);
    var (path, params) := SplitParams(ref);
    if '/' !in Rejoined(ref) {
      OnePart(Rejoined(ref));
      WholeIsLast(Rejoined(ref));
      RejoinedEnd(ref);
      ClosedWithoutSlash(ref);
      PathLacksParams(ref);
      AppendNothing(LastOf(path));
      BaredLacks(LastOf(path));
      if params == "" {
        NoParams(Bared(LastOf(path)));
      } else {
        SemicolonFirst(params);
        BaredAppends(LastOf(path), ";" + params);
        DotsWithParams(Bared(LastOf(path)), params);
      }
    }
  }

  lemma UncoversDotsIs(ref: string)
    ensures var (path, params) := SplitParams(ref);
            UncoversDots(ref) <==> params != "" && '/' !in Rejoined(ref) && IsDots(Bared(LastOf(path)))
  {
    hide SplitParams, Rejoined, Bared, LastOf;
  }

  lemma SemicolonFirst(params: string)
    ensures var t := ";" + params; t != "" && t[0] == ';'
  {
  }

  lemma WholeIsLast(s: string)
    requires Parts(s) == [s]
    ensures LastOf(s) == s
  {
    hide Parts;
  }

  lemma ClosedWithoutSlash(ref: string)
    requires '/' !in Rejoined(ref)
    ensures !OpenEnd(SplitParams(ref).0)
  {
    hide *;
    var (path, params) := SplitParams(ref);
    RejoinedIs(ref);
    JoinedPathLeads(path);
    EndHasSlash(JoinedPath(path), if params == "" then "" else ";" + params);
  }

  lemma EndHasSlash(s: string, more: string)
    ensures EndsWith(s, "/") ==> '/' in s + more
  {
    if EndsWith(s, "/") {
      assert s[|s| - 1..][0] == '/';
      assert (s + more)[|s| - 1] == '/';
    }
  }

  lemma EndOfPath(s: string, p: string)
    requires EndsWith(s, p) && '/' in p
    ensures LastOf(s) == LastOf(p)
  {
    hide *;
    LastOfIs(p);
    LastOfIs(s);
    var n, m := LastPart(p), |s| - |p|;
    EndIs(s, p);
    PastSlash(p);
    FrontIsSlashed(s[..m], p, n);
    LastPartIs(s[..m] + p[..n], p[n..]);
    Behind(s[..m] + p[..n], p[n..]);
  }

  lemma EndIs(s: string, p: string)
    requires EndsWith(s, p)
    ensures |p| <= |s| && s == s[..|s| - |p|] + p
  {
  }

  lemma PastSlash(p: string)
    requires '/' in p
    ensures 0 < LastPart(p) <= |p| && p[LastPart(p) - 1] == '/' && '/' !in p[LastPart(p)..]
  {
    assert p[0..] == p;
  }

  lemma FrontIsSlashed(x: string, p: string, n: nat)
    requires 0 < n <= |p| && p[n - 1] == '/'
    ensures x + p == x + p[..n] + p[n..] && var y := x + p[..n]; y != "" && y[|y| - 1] == '/'
  {
  }

  /** The last part of the path that is read: the joined one, or what is left of it. */
  lemma ReadEnd(ref: string)
    requires Lacks(ref, ENDINGS)
    ensures var joined, path := Rejoined(ref), UrlSplit(Joined(ref)).path;
            || path == ""
            || ('/' in path && LastOf(path) == LastOf(joined))
            || ('/' !in path && '/' !in joined && path == Bared(joined) && |path| <= |joined|)
  {
    hide *;
    ReadsJoined(ref);
    var joined, path := Rejoined(ref), UrlSplit(Joined(ref)).path;
    SlashAtStart(joined);
    SlashAtStart(path);
    BaredIsEnd(joined);
    if '/' in path {
      EndOfPath(joined, path);
    } else if path != "" {
      LacksSlash(joined, Bared(joined));
    }
  }

  lemma SlashAtStart(s: string)
    ensures StartsWith(s, "/") ==> '/' in s
  {
    if StartsWith(s, "/") { assert s[..1][0] == s[0]; }
  }

  lemma LacksSlash(s: string, u: string)
    requires EndsWith(s, u) && '/' !in s[..|s| - |u|] && '/' !in u
    ensures '/' !in s && |u| <= |s|
  {
    assert s == s[..|s| - |u|] + u;
  }

  lemma RenderedSettles(segs: seq<string>, slash: bool)
    requires AllOrdinary(segs) && (slash || (segs != [] && GoodEnd(segs[|segs| - 1])))
    ensures Settled(Rendered(segs, slash))
  {
    hide Place, Rendered, GoodEnd;
    RenderedPlace(segs, slash);
    if segs == [] { RenderedRoot(slash, true); }
  }

  lemma SettledMeans(c: string)
    requires Settled(c)
    ensures c == Rendered(Place(c), EndsWith(c, "/"))
    ensures EndsWith(c, "/") || (Place(c) != [] && GoodEnd(Place(c)[|Place(c)| - 1]))
  {
    hide Place, Rendered, GoodEnd, EndsWith;
  }

  lemma BadEndIsUnsettled(segs: seq<string>)
    requires AllOrdinary(segs) && segs != [] && !GoodEnd(segs[|segs| - 1])
    ensures !Settled(Rendered(segs, false))
  {
    RenderedPlace(segs, false);
    hide Place, Rendered, GoodEnd;
  }

  /** How a path folds, by its last part: to a directory, or to a path with that part. */
  lemma FoldsByEnd(path: string)
    requires path != "" && (!IsDots(LastOf(path)) || '/' !in path)
    ensures AllOrdinary(Place(path)) && Folded(path) == Rendered(Place(path), EndsWith(path, "/"))
    ensures EndsWith(path, "/") || Place(path) == [] || Place(path)[|Place(path)| - 1] == LastOf(path)
    ensures Place(path) == [] && !EndsWith(path, "/") ==> IsDots(path) && '/' !in path
    ensures '/' !in path && IsDots(path) ==> Place(path) == []
  {
    hide *;
    PlaceIsOrdinary(path);
    FoldedIs(path);
    EndsWhenLastIsEmpty(path);
    OrdinaryOrNot(LastOf(path));
    if '/' !in path {
      OnePart(path);
      WholeIsLast(path);
      PlaceIs(path);
      OneStep([], path);
      DotsStep(path);
    }
    if Ordinary(LastOf(path)) {
      ClosedEnd(path);
    }
  }

  lemma OrdinaryOrNot(seg: string)
    ensures Ordinary(seg) <==> seg != "" && !IsDots(seg)
  {
  }

  lemma DotsStep(seg: string)
    ensures IsDots(seg) ==> Stepped([], seg) == []
  {
  }

  lemma SettlesByEnd(path: string)
    requires path != "" && !IsDots(LastOf(path))
    ensures Settled(Folded(path)) <==> GoodEnd(LastOf(path))
  {
    hide *;
    FoldsByEnd(path);
    EndsWhenLastIsEmpty(path);
    EmptyIsGood();
    if '/' !in path { OnePart(path); WholeIsLast(path); }
    if EndsWith(path, "/") || GoodEnd(LastOf(path)) {
      RenderedSettles(Place(path), EndsWith(path, "/"));
    } else {
      BadEndIsUnsettled(Place(path));
    }
  }

  lemma EmptyIsGood()
    ensures GoodEnd("") && GoodEnd(".") && GoodEnd("..")
  {
    NoParams("");
    NoParams(".");
    NoParams("..");
  }

  lemma DotsFold(path: string)
    requires '/' !in path && IsDots(path)
    ensures Folded(path) == "/"
  {
    hide *;
    SomethingInDots(path);
    FoldsByEnd(path);
    EmptyRendered(EndsWith(path, "/"));
  }

  lemma SomethingInDots(path: string)
    ensures IsDots(path) ==> path != "" && (path == "." || path == "..")
  {
  }

  lemma EmptyRendered(slash: bool)
    ensures Rendered([], slash) == "/"
  {
  }

  lemma RootFolds()
    ensures Folded("/") == "/" && Settled("/") && StartsWith("/", "/")
  {
    hide *;
    EmptyRendered(true);
    NothingOrdinary();
    RenderedPlace([], true);
    FoldedIs("/");
    RenderedSettles([], true);
    OneSlashStarts();
  }

  lemma OneSlashStarts()
    ensures StartsWith("/", "/")
  {
  }

  lemma NothingOrdinary()
    ensures AllOrdinary([])
  {
  }

  /** What cleaning gives is in the form that cleaning leaves alone, exactly when the reference
      does not uncover dots. */
  lemma CleanSettlesIff(ref: string)
    requires Lacks(ref, ENDINGS)
    ensures Settled(Clean(ref)) <==> !UncoversDots(ref)
    ensures UncoversDots(ref) ==>
              var name := Bared(Rejoined(ref)); Ordinary(name) && '/' !in name && Clean(ref) == Rendered([name], false)
  {
    hide *;
    var joined, path := Rejoined(ref), UrlSplit(Joined(ref)).path;
    CleanIs(ref);
    ReadPathIs(ref);
    ReadEnd(ref);
    RejoinedEnd(ref);
    LastIsNoDots(joined);
    UncoversDotsIff(ref);
    EmptyIsGood();
    if path == "" {
      RootFolds();
      if '/' !in joined { BaredOfNothing(ref); }
    } else if '/' in path {
      SettlesByEnd(path);
      SlashStays(ref);
    } else {
      OnePart(path);
      WholeIsLast(path);
      SomethingInDots(path);
      if IsDots(path) {
        DotsFold(path);
        RootFolds();
      } else {
        SettlesByEnd(path);
        FoldsByEnd(path);
        NameFolds(path);
      }
    }
  }

  lemma NameFolds(name: string)
    requires '/' !in name && name != "" && !IsDots(name)
    ensures Ordinary(name) && Place(name) == [name] && Folded(name) == Rendered([name], false)
  {
    hide *;
    OrdinaryOrNot(name);
    OnePart(name);
    WholeIsLast(name);
    PlaceIs(name);
    OneStep([], name);
    StepDown(name);
    FoldedIs(name);
    EndsWhenLastIsEmpty(name);
  }

  lemma StepDown(name: string)
    requires Ordinary(name)
    ensures Stepped([], name) == [name]
  {
  }

  /** Where the path that is read is empty, nothing is left of the joined reference. */
  lemma BaredOfNothing(ref: string)
    requires Lacks(ref, ENDINGS) && UrlSplit(Joined(ref)).path == "" && '/' !in Rejoined(ref)
    ensures Bared(Rejoined(ref)) == ""
  {
    hide *;
    ReadsJoined(ref);
    BaredIsEnd(Rejoined(ref));
    SlashAtStart(Rejoined(ref));
    TwoSlashesAreSlash(Rejoined(ref), Bared(Rejoined(ref)));
  }

  lemma TwoSlashesAreSlash(s: string, u: string)
    requires EndsWith(s, u) && '/' !in s
    ensures !StartsWith(u, "//")
  {
    assert |u| >= 2 ==> u[..2][0] == u[0] == s[|s| - |u|];
  }

  /** A path that is read and has a slash comes from a joined reference that has one. */
  lemma SlashStays(ref: string)
    requires Lacks(ref, ENDINGS) && '/' in UrlSplit(Joined(ref)).path
    ensures '/' in Rejoined(ref)
  {
    hide *;
    ReadsJoined(ref);
    EndIsPart(Rejoined(ref), UrlSplit(Joined(ref)).path);
  }

  lemma EndIsPart(s: string, p: string)
    requires EndsWith(s, p)
    ensures '/' in p ==> '/' in s
  {
    assert forall k :: 0 <= k < |p| ==> p[k] == s[|s| - |p| + k];
  }

  /** How long the last part is that cleaning gives: shorter than the reference's, unless that
      one is good. */
  lemma RejoinedIsShorter(ref: string)
    ensures |LastOf(Rejoined(ref))| <= |LastOf(ref)|
    ensures |LastOf(Rejoined(ref))| == |LastOf(ref)| ==> LastOf(ref) == "" || GoodEnd(LastOf(ref))
  {
    hide *;
    var n := LastPart(ref);
    var p, q := ref[..n], ref[n..];
    FrontOfPart(ref);
    LastOfIs(ref);
    ParamsOf(p, q);
    RejoinedEnd(ref);
    var k := Find(q, ";");
    StemOf(q);
    LastPartIs(p, q[..k]);
    LastOfIs(p + q[..k]);
    Behind(p, q[..k]);
    OpenEndIs(p + q[..k]);
    EndLength(q, k, LastOf(Rejoined(ref)));
  }

  lemma FrontOfPart(s: string)
    ensures var n := LastPart(s);
            s == s[..n] + s[n..] && '/' !in s[n..] && (s[..n] == "" || s[..n][|s[..n]| - 1] == '/')
  {
  }

  lemma StemOf(q: string)
    ensures var k := Find(q, ";");
            k <= |q| && (k == |q| ==> q[..k] == q) && ('/' !in q ==> '/' !in q[..k]) && ';' !in q[..k]
  {
    var k := Find(q, ";");
    assert q[..|q|] == q;
    hide Find;
    assert forall i :: 0 <= i < k ==> q[..k][i] == q[i];
  }

  lemma OpenEndIs(path: string)
    ensures OpenEnd(path) <==> LastOf(path) == "" || IsDots(LastOf(path))
  {
  }

  lemma EndLength(q: string, k: nat, end: string)
    requires k == Find(q, ";") <= |q|
    requires var stem, params := q[..k], if k == |q| then "" else q[k + 1..];
             end == (if stem == "" || IsDots(stem) then "" else stem) + (if params == "" then "" else ";" + params)
    ensures |end| <= |q| && (|end| == |q| ==> q == "" || GoodEnd(q))
  {
    hide Find, IsDots;
    EmptyStem();
    if k == |q| {
      assert q[..k] == q;
    }
  }

  /** What cleaning gives: a directory, or a last segment no longer than the reference's, and
      shorter unless that one is good. */
  lemma CleanEnd(ref: string) returns (segs: seq<string>, slash: bool)
    requires Lacks(ref, ENDINGS)
    ensures Clean(ref) == Rendered(segs, slash) && AllOrdinary(segs)
    ensures slash || segs == [] ||
            (var last := segs[|segs| - 1];
             |last| <= |LastOf(ref)| && (|last| == |LastOf(ref)| ==> GoodEnd(LastOf(ref))))
  {
    hide *;
    var joined, path := Rejoined(ref), UrlSplit(Joined(ref)).path;
    CleanIs(ref);
    ReadPathIs(ref);
    ReadEnd(ref);
    RejoinedEnd(ref);
    LastIsNoDots(joined);
    RejoinedIsShorter(ref);
    EmptyIsGood();
    if path == "" {
      RootFolds();
      EmptyRendered(true);
      NothingOrdinary();
      segs, slash := [], true;
    } else {
      if '/' !in path {
        OnePart(path);
        OnePart(joined);
        WholeIsLast(path);
        WholeIsLast(joined);
      }
      FoldsByEnd(path);
      segs, slash := Place(path), EndsWith(path, "/");
    }
  }

  // ---- A settled path stays --------------------------------------------------------------------------

  lemma {:induction false} NoDotsStay(parts: seq<string>)
    requires forall k :: 0 <= k < |parts| ==> !IsDots(parts[k])
    ensures Resolved(parts) == parts
    decreases |parts|
  {
    if parts != [] {
      var n := |parts| - 1;
      assert !IsDots(parts[n]);
      NoDotsStay(parts[..n]);
      assert parts == parts[..n] + [parts[n]];
    }
  }

  /** Joining a rendered path gives it back. */
  lemma RenderedJoins(segs: seq<string>, slash: bool)
    requires AllOrdinary(segs)
    ensures JoinedPath(Rendered(segs, slash)) == Rendered(segs, slash)
  {
    var c := Rendered(segs, slash);
    RenderedIsNormal(segs, slash);
    RenderedTail(segs, slash);
    SlashedParts(c);
    var ps := Parts(c);
    forall k | 0 <= k < |ps| ensures !IsDots(ps[k]) {
      NormalHasNoDots(ps, k);
    }
    assert StartsWith(c, "/") by { assert ("/" + Tail(segs, slash))[..1] == "/"; }
    RootedSegments(c);
    NoDotsStay(ps);
    hide Parts, Slashed, Segments, Resolved, Rendered, Normal;
    AppendNothing(ps);
  }

  lemma NormalHasNoDots(ps: seq<string>, k: nat)
    requires Normal(ps) && k < |ps|
    ensures !IsDots(ps[k])
  {
  }

  /** A rendered path is what leads to its last segment and the segment. */
  lemma RenderedLast(segs: seq<string>)
    requires segs != []
    ensures Rendered(segs, false) == Rendered(segs[..|segs| - 1], true) + segs[|segs| - 1]
    ensures EndsWith(Rendered(segs[..|segs| - 1], true), "/")
    ensures var r := Rendered(segs[..|segs| - 1], true); r != "" && r[|r| - 1] == '/'
  {
    var n := |segs| - 1;
    var front, last := segs[..n], segs[n];
    assert segs == front + [last];
    if n == 0 {
      assert front == [];
      assert Rendered(segs, false) == "/" + last;
      assert Rendered(front, true) == "/";
    } else {
      SlashedLast(front, last);
      hide Slashed;
      var r := Rendered(front, true);
      assert r[|r| - 1..] == "/";
      assert Rendered(segs, false) == "/" + (Slashed(front) + "/" + last) + "";
      assert "/" + (Slashed(front) + "/" + last) + "" == "/" + Slashed(front) + "/" + last;
    }
  }

  lemma NothingAfterSlash(c: string)
    requires EndsWith(c, "/")
    ensures SplitParams(c) == (c, "")
  {
    assert c[|c| - 1..] == "/" && c[|c| - 1] == '/';
    ParamsOf(c, "");
    AppendNothing(c);
    assert Find("", ";") == 0;
  }

  /** Joining a settled path gives it back. */
  lemma SettledJoins(c: string)
    requires Settled(c)
    ensures Rejoined(c) == c && StartsWith(c, "/")
  {
    var segs := Place(c);
    PlaceIsOrdinary(c);
    RenderedTail(segs, EndsWith(c, "/"));
    assert ("/" + Tail(segs, EndsWith(c, "/")))[..1] == "/";
    hide Place, Rendered, JoinedPath, SplitParams, Tail, EndsWith, Rejoined;
    if EndsWith(c, "/") {
      NothingAfterSlash(c);
      RenderedJoins(segs, true);
      RejoinedIs(c);
      AppendNothing(c);
    } else {
      RenderedLast(segs);
      SettledEnd(segs);
    }
  }

  lemma SettledEnd(segs: seq<string>)
    requires AllOrdinary(segs) && segs != [] && GoodEnd(segs[|segs| - 1])
    ensures Rejoined(Rendered(segs, false)) == Rendered(segs, false)
  {
    hide *;
    var front, last := segs[..|segs| - 1], segs[|segs| - 1];
    FrontIsOrdinary(segs);
    RenderedLast(segs);
    ParamsOf(Rendered(front, true), last);
    var k := Find(last, ";");
    if k == |last| {
      RenderedJoins(segs, false);
      RenderedTail(segs, false);
      RejoinedIs(Rendered(segs, false));
      AppendNothing(Rendered(segs, false));
    } else {
      GoodStem(last);
      SettledWithParams(segs, last[..k], last[k + 1..]);
    }
  }

  lemma FrontIsOrdinary(segs: seq<string>)
    requires AllOrdinary(segs) && segs != []
    ensures AllOrdinary(segs[..|segs| - 1]) && '/' !in segs[|segs| - 1]
  {
  }

  lemma GoodStem(last: string)
    requires GoodEnd(last) && Find(last, ";") < |last|
    ensures var k := Find(last, ";");
            last == last[..k] + (";" + last[k + 1..]) && last[k + 1..] != "" && !IsDots(last[..k])
  {
    StemParts(last, Find(last, ";"));
    hide Find;
  }

  lemma StemParts(last: string, k: nat)
    requires k < |last| && last[k] in ";"
    ensures last == last[..k] + (";" + last[k + 1..])
  {
    assert last[k] == ';';
  }

  lemma SettledWithParams(segs: seq<string>, stem: string, params: string)
    requires AllOrdinary(segs) && segs != [] && params != "" && !IsDots(stem)
    requires segs[|segs| - 1] == stem + (";" + params)
    requires SplitParams(Rendered(segs, false)) == (Rendered(segs[..|segs| - 1], true) + stem, params)
    ensures Rejoined(Rendered(segs, false)) == Rendered(segs, false)
  {
    hide *;
    var front := segs[..|segs| - 1];
    var p := Rendered(front, true);
    FrontIsOrdinary(segs);
    RenderedLast(segs);
    if stem == "" {
      AppendNothing(p);
      RenderedJoins(front, true);
    } else {
      StemIsOrdinary(segs, stem);
      assert (front + [stem])[..|front|] == front && (front + [stem])[|front|] == stem;
      RenderedLast(front + [stem]);
      RenderedJoins(front + [stem], false);
    }
    JoinsWithParams(Rendered(segs, false), p + stem, params);
    assert p + stem + (";" + params) == p + (stem + (";" + params));
  }

  lemma StemIsOrdinary(segs: seq<string>, stem: string)
    requires AllOrdinary(segs) && segs != [] && stem != "" && !IsDots(stem) && stem <= segs[|segs| - 1]
    ensures AllOrdinary(segs[..|segs| - 1] + [stem])
  {
    var last := segs[|segs| - 1];
    assert Ordinary(stem) && '/' !in last;
    assert forall i :: 0 <= i < |stem| ==> stem[i] == last[i] && last[i] in last;
  }

  lemma JoinsWithParams(ref: string, path: string, params: string)
    requires SplitParams(ref) == (path, params) && params != "" && JoinedPath(path) == path
    ensures Rejoined(ref) == path + (";" + params)
  {
    hide SplitParams, JoinedPath;
  }

  /** A settled path without characters that end or leave a URL's path is a reference to itself. */
  predicate PlainPath(c: string) {
    StartsWith(c, "/") && !StartsWith(c, "//") && Lacks(c, "?#") && Lacks(c, DROPPED)
  }

  lemma PlainSplits(c: string)
    requires PlainPath(c)
    ensures UrlSplit(c) == Split("", "", c)
  {
    assert c[0] == c[..1][0] == '/';
    assert Uncontrolled(c) == c;
    CleanedLacks(c);
    CutName(c);
    hide Cleaned, Uncontrolled, Cut, Find;
    assert !HasScheme(c);
  }

  /** Cleaning a settled path changes nothing. */
  lemma SettledIsClean(c: string)
    requires Settled(c) && PlainPath(c)
    ensures Clean(c) == c && Kept(c)
  {
    hide *;
    SettledJoins(c);
    PlainSplits(c);
    PlainStarts(c);
    JoinedIs(c);
    KeptWhenRooted(c);
    CleanIs(c);
    ReadPathIs(c);
    FoldedIs(c);
    SettledMeans(c);
  }

  lemma PlainStarts(c: string)
    requires PlainPath(c)
    ensures c != "" && StartsWith(c, "/") && !StartsWith(c, "//")
  {
  }

  /** A rendered path without its first slash. */
  function Tail(segs: seq<string>, slash: bool): string {
    Slashed(segs) + if slash && segs != [] then "/" else ""
  }

  lemma RenderedTail(segs: seq<string>, slash: bool)
    ensures Rendered(segs, slash) == "/" + Tail(segs, slash)
  {
    hide Slashed;
    var end := if slash && segs != [] then "/" else "";
    assert "/" + Slashed(segs) + end == "/" + (Slashed(segs) + end);
  }

  lemma SlashedTail(segs: seq<string>, open: bool)
    requires segs != []
    ensures Slashed(segs + if open then [""] else []) == Tail(segs, open)
  {
    hide Slashed;
    if open {
      SlashedLast(segs, "");
      assert Slashed(segs) + "/" + "" == Slashed(segs) + "/";
    } else {
      AppendNothing(segs);
      AppendNothing(Slashed(segs));
    }
  }

  lemma SlashedRoot()
    ensures Slashed([]) == "" && Slashed([""]) == "" && Slashed(["", ""]) == "/"
  {
    assert ["", ""][1..] == [""];
  }

  lemma EmptyTail(open: bool)
    ensures Tail([], open) == "" && "/" + "" == "/"
  {
  }

  lemma TailIs(segs: seq<string>, slash: bool)
    ensures Tail(segs, slash) == Slashed(segs) + if slash && segs != [] then "/" else ""
  {
  }

  // ---- The alias in front -------------------------------------------------------------------------

  lemma {:induction false} PartsJoin(s: string, t: string)
    ensures Parts(s + "/" + t) == Parts(s) + Parts(t)
    decreases |s|
  {
    hide *;
    if '/' in s {
      var first, rest := SplitAtFirst(s);
      FirstPart(first, rest);
      SlashLater(first, rest, t);
      FirstPart(first, rest + "/" + t);
      PartsJoin(rest, t);
      assert [first] + (Parts(rest) + Parts(t)) == [first] + Parts(rest) + Parts(t);
    } else {
      OnePart(s);
      FirstPart(s, t);
    }
  }

  lemma SlashLater(a: string, b: string, c: string)
    ensures a + "/" + b + "/" + c == a + "/" + (b + "/" + c)
  {
  }

  lemma {:induction false} SlashedAppends(a: seq<string>, b: seq<string>)
    requires a != [] && b != []
    ensures Slashed(a + b) == Slashed(a) + "/" + Slashed(b)
    decreases |a|
  {
    hide *;
    var first, rest := a[0], a[1..];
    assert a == [first] + rest;
    if rest == [] {
      assert a == [first] && [first] + b == a + b;
      SlashedFirst(first, b);
      OneSlashed(first);
    } else {
      assert a + b == [first] + (rest + b);
      SlashedFirst(first, rest);
      SlashedFirst(first, rest + b);
      SlashedAppends(rest, b);
      SlashLater(first, Slashed(rest), Slashed(b));
    }
  }

  /** Segments in front of a rendered path. */
  lemma RenderedPrefix(a: seq<string>, b: seq<string>, slash: bool)
    requires a != []
    ensures "/" + Slashed(a) + Rendered(b, slash) == Rendered(a + b, slash || b == [])
  {
    hide *;
    RenderedTail(b, slash);
    RenderedTail(a + b, slash || b == []);
    TailIs(b, slash);
    TailIs(a + b, slash || b == []);
    var p := Slashed(a);
    if b == [] {
      assert a + b == a;
      SlashedRoot();
      assert "/" + p + ("/" + ("" + "")) == "/" + (p + "/");
    } else {
      SlashedAppends(a, b);
      var end := if slash then "/" else "";
      assert "/" + p + ("/" + (Slashed(b) + end)) == "/" + (p + "/" + Slashed(b) + end);
    }
  }

  /** An alias in front of a settled path is settled. */
  lemma PrefixSettles(a: seq<string>, c: string)
    requires a != [] && AllOrdinary(a) && Settled(c)
    ensures Settled("/" + Slashed(a) + c)
  {
    var b, slash := Place(c), EndsWith(c, "/");
    PlaceIsOrdinary(c);
    hide Place, Slashed, Rendered, GoodEnd, EndsWith;
    RenderedPrefix(a, b, slash);
    BothOrdinary(a, b);
    RenderedSettles(a + b, slash || b == []);
  }

  lemma BothOrdinary(a: seq<string>, b: seq<string>)
    requires AllOrdinary(a) && AllOrdinary(b)
    ensures AllOrdinary(a + b)
    ensures b != [] ==> (a + b)[|a + b| - 1] == b[|b| - 1]
  {
  }

  /** What follows the alias in a settled path is settled. */
  lemma RestSettles(a: seq<string>, rest: string)
    requires a != [] && AllOrdinary(a) && StartsWith(rest, "/") && Settled("/" + Slashed(a) + rest)
    ensures Settled(rest)
  {
    hide *;
    var c := "/" + Slashed(a) + rest;
    var r := AfterSlash(rest);
    SettledMeans(c);
    var segs, slash := Place(c), EndsWith(c, "/");
    PlaceIsOrdinary(c);
    RenderedParts(segs, slash);
    PartsJoin("/" + Slashed(a), r);
    SlashLaterOnce(Slashed(a), r);
    RenderedParts(a, false);
    RenderedPlain(a);
    SomeParts(r);
    var b := Remainder(a, segs, slash, Parts(r));
    SlashedParts(r);
    SlashedTailOrRoot(b, slash, r);
    RestOrdinary(a, b);
    BothOrdinary(a, b);
    RenderedTail(b, slash);
    if !slash { assert b != []; }
    RenderedSettles(b, slash);
  }

  lemma AfterSlash(rest: string) returns (r: string)
    requires StartsWith(rest, "/")
    ensures rest == "/" + r
  {
    r := rest[1..];
    assert rest == rest[..1] + rest[1..];
  }

  lemma SlashLaterOnce(a: string, r: string)
    ensures "/" + a + ("/" + r) == "/" + a + "/" + r
  {
  }

  lemma RenderedPlain(a: seq<string>)
    requires a != []
    ensures Rendered(a, false) == "/" + Slashed(a)
  {
    hide Slashed;
    AppendNothing("/" + Slashed(a));
  }

  lemma SameTail<T>(first: T, a: seq<T>, b: seq<T>)
    requires [first] + a == [first] + b
    ensures a == b
  {
    assert ([first] + a)[1..] == a && ([first] + b)[1..] == b;
  }

  /** The segments after the alias. */
  lemma Remainder(a: seq<string>, segs: seq<string>, slash: bool, ps: seq<string>) returns (b: seq<string>)
    requires a != [] && ps != []
    requires [""] + a + ps == if segs == [] then ["", ""] else if slash then [""] + segs + [""] else [""] + segs
    requires AllOrdinary(a)
    ensures segs == a + b && ps == (if slash then b + [""] else b)
  {
    var n := 1 + |a|;
    assert ([""] + a + ps)[1] == a[0];
    assert Ordinary(a[0]);
    assert segs != [];
    var whole := if slash then segs + [""] else segs;
    assert [""] + a + ps == [""] + (a + ps);
    assert [""] + segs + [""] == [""] + (segs + [""]);
    SameTail("", a + ps, whole);
    b := segs[|a|..];
    assert whole[..|a|] == a && whole[|a|..] == ps;
    if slash { assert |segs| >= |a|; assert segs == a + b; } else { assert segs == a + b; }
  }

  lemma RestOrdinary(a: seq<string>, b: seq<string>)
    requires AllOrdinary(a + b)
    ensures AllOrdinary(b)
  {
    forall k | 0 <= k < |b| ensures Ordinary(b[k]) && '/' !in b[k] {
      assert (a + b)[|a| + k] == b[k];
    }
  }

  lemma SlashedTailOrRoot(b: seq<string>, slash: bool, r: string)
    requires r == Slashed(if slash then b + [""] else b)
    requires slash || b != []
    ensures r == Tail(b, slash)
  {
    hide Slashed;
    SlashedRoot();
    if b == [] {
      EmptyTail(slash);
      assert b + [""] == [""];
    } else {
      SlashedTail(b, slash);
      AppendNothing(b);
    }
  }

  lemma FoldedLacks(path: string, chars: string)
    requires Lacks(path, chars) && '/' !in chars
    ensures Lacks(Folded(path), chars)
  {
    hide *;
    var slash := EndsWith(path, "/");
    PartsLack(path, chars);
    NoneLack(chars);
    WalkedLacks([], Parts(path), chars);
    PlaceIs(path);
    SlashedLacks(Place(path), chars);
    FoldedIs(path);
    RenderedTail(Place(path), slash);
    TailIs(Place(path), slash);
    SlashLacks(chars);
    NothingLacks(chars);
    var end := if slash && Place(path) != [] then "/" else "";
    LacksAppends(Slashed(Place(path)), end, chars);
    LacksAppends("/", Slashed(Place(path)) + end, chars);
  }

  lemma CleanLacks(ref: string)
    ensures Lacks(Clean(ref), ENDINGS)
  {
    SplitLacks(Joined(ref));
    hide UrlSplit, Joined, Folded;
    var path := UrlSplit(Joined(ref)).path;
    FoldedLacks(if path == "" then "/" else path, ENDINGS);
  }

  /** An alias whose segments are ordinary and without characters that end a path. */
  predicate PlainAlias(alias: string) {
    var a := Unslashed(alias);
    a != "" && AllOrdinary(Parts(a)) && Lacks(a, ENDINGS)
  }

  lemma {:induction false} UnslashedStarts(s: string)
    ensures Unslashed(s) == "" || Unslashed(s)[0] != '/'
    decreases |s|
  {
    if s != "" {
      if s[0] == '/' { UnslashedStarts(s[1..]); }
      else if s[|s| - 1] == '/' { UnslashedStarts(s[..|s| - 1]); }
    }
  }

  /** The backend path is settled when the path is, and the gateway path is the alias and the
      backend path, settled too. */
  lemma GatewaySettles(c: string, a: string)
    requires Settled(c) && a != "" && AllOrdinary(Parts(a))
    ensures var b := Backend(c, "/" + a);
            && Settled(b) && StartsWith(b, "/")
            && Settled("/" + a + b) && Backend("/" + a + b, "/" + a) == b
  {
    hide *;
    var p := "/" + a;
    var b := Backend(c, p);
    SlashedParts(a);
    SomeParts(a);
    BackendIs(c, p);
    if c == p {
      RootFolds();
    } else if StartsWith(c, p + "/") {
      var rest := FromPrefix(c, p);
      RestSettles(Parts(a), rest);
    }
    SettledJoins(b);
    PrefixSettles(Parts(a), b);
    BackendBack(p, b);
  }

  lemma BackendIs(c: string, p: string)
    ensures Backend(c, p) == if c == p then "/" else if StartsWith(c, p + "/") then c[|p|..] else c
  {
    if c == p {
      assert c[|p|..] == "";
    } else if StartsWith(c, p + "/") {
      assert c[|p|] == c[..|p| + 1][|p|] == '/';
    }
  }

  lemma FromPrefix(c: string, p: string) returns (rest: string)
    requires StartsWith(c, p + "/")
    ensures |p| <= |c| && rest == c[|p|..] && StartsWith(rest, "/") && c == p + rest
  {
    assert c[..|p| + 1] == p + "/";
    assert c[..|p|] == (p + "/")[..|p|] == p;
    assert c[|p|] == c[..|p| + 1][|p|] == '/';
    rest := c[|p|..];
    assert rest[..1] == "/";
  }

  lemma BackendBack(p: string, b: string)
    requires StartsWith(b, "/")
    ensures Backend(p + b, p) == b
  {
    BackendIs(p + b, p);
    Behind(p, b);
    assert b[..1] == "/";
    assert (p + b)[..|p| + 1] == p + b[..1];
  }

  lemma NotInline(g: string)
    requires StartsWith(g, "/")
    ensures g != "" && !(exists k :: 0 <= k < |INLINE| && StartsWith(Lower(g), INLINE[k]))
  {
    assert g[0] == g[..1][0] == '/';
    assert Lower(g)[0] == '/';
    FirstDiffers(Lower(g), "data:");
    FirstDiffers(Lower(g), "blob:");
    FirstDiffers(Lower(g), "javascript:");
    hide Lower, StartsWith;
  }

  lemma FirstDiffers(s: string, prefix: string)
    requires s != "" && prefix != "" && s[0] != prefix[0]
    ensures !StartsWith(s, prefix)
  {
    assert |prefix| <= |s| ==> s[..|prefix|][0] == s[0];
  }

  lemma GatewayIsPlain(a: string, b: string, c: string)
    requires a != "" && a[0] != '/' && Lacks(a, ENDINGS) && Lacks(c, ENDINGS) && b == Backend(c, "/" + a)
    ensures PlainPath("/" + a + b)
  {
    var g := "/" + a + b;
    BackendIs(c, "/" + a);
    assert g[..1] == "/" && g[1] == a[0];
    assert !StartsWith(g, "//") by { assert g[..2][1] == a[0]; }
    assert Lacks(b, ENDINGS);
    SlashLacks(ENDINGS);
    hide Backend, StartsWith;
    LacksAppends("/" + a, b, ENDINGS);
    LacksAppends("/", a, ENDINGS);
    EndingsAre(g);
  }

  lemma AliasAwareIs(src: string, alias: string, c: string)
    requires Classified(src) == Some(c) && Unslashed(alias) != ""
    ensures var b := Backend(c, "/" + Unslashed(alias));
            AliasAware(src, Some(alias)) == (Some(b), Some("/" + Unslashed(alias) + b))
  {
    hide Classified, Unslashed, Backend;
  }

  lemma NothingStripped(g: string)
    requires StartsWith(g, "/") && !EndsBlank(g)
    ensures Stripped(g) == g
  {
    assert g[0] == g[..1][0] == '/';
    assert !IsBlank('/');
    StrippedIsShorter(g);
  }

  /** A plain path is a reference that is cleaned as the path it is. */
  lemma PlainIsReference(g: string, x: string)
    requires Stripped(g) == x && PlainPath(x)
    ensures Classified(g) == Some(Clean(x))
  {
    PlainStarts(x);
    NotInline(x);
    PlainSplits(x);
    hide Stripped, PlainPath, UrlSplit, Clean, StartsWith, Lower, INLINE;
  }

  /** A settled gateway path that ends without a blank is a reference to itself. */
  lemma GatewayIsReference(g: string)
    requires Settled(g) && PlainPath(g) && !EndsBlank(g)
    ensures Classified(g) == Some(g)
  {
    hide *;
    PlainStarts(g);
    NothingStripped(g);
    PlainIsReference(g, g);
    SettledIsClean(g);
  }

  /** A front of a plain path is plain. */
  lemma PlainFront(g: string, x: string)
    requires PlainPath(g) && x != "" && x <= g
    ensures PlainPath(x) && Lacks(x, ENDINGS)
  {
    assert forall k :: 0 <= k < |x| ==> x[k] == g[k];
    assert g[..1] == "/" && x[..1] == g[..1];
    assert |x| >= 2 ==> x[..2] == g[..2];
    forall k | 0 <= k < |x| ensures x[k] !in ENDINGS {
      assert g[k] !in "?#" && g[k] !in DROPPED;
    }
  }

  lemma Differs(segs: seq<string>, slash: bool, segs': seq<string>)
    requires AllOrdinary(segs) && AllOrdinary(segs') && segs' != []
    requires slash || segs == [] || |segs[|segs| - 1]| < |segs'[|segs'| - 1]|
    ensures Rendered(segs, slash) != Rendered(segs', false) && Rendered(segs', false) != "/"
  {
    hide *;
    RenderedPlace(segs, slash);
    RenderedPlace(segs', false);
    EmptyRendered(false);
    NothingOrdinary();
    RenderedPlace([], false);
  }

  lemma EndsBlankLast(front: string, last: string)
    requires last != ""
    ensures EndsBlank(front + last) <==> EndsBlank(last)
  {
  }

  /** What is read of a path again: its last segment without the blanks at the end. */
  lemma ReadAgain(front: string, last: string) returns (x: string)
    requires PlainPath(front + last) && EndsWith(front, "/") && StartsWith(front, "/") && '/' !in last
    ensures Stripped(front + last) == x && PlainPath(x) && Lacks(x, ENDINGS) && LastOf(x) == Trimmed(last)
  {
    hide *;
    x := front + Trimmed(last);
    SlashesAround(front);
    StrippedAfter(front, last);
    TrimmedIsPrefix(last);
    FrontAndTrimmed(front, last, Trimmed(last));
    PlainFront(front + last, x);
    EndsWhenLastIsEmpty(front);
    PartsGrow(front, Trimmed(last));
    SomeParts(front);
    SomeParts(x);
    AppendsToNothing(Parts(front), LastOf(front), Trimmed(last));
  }

  lemma AppendsToNothing(parts: seq<string>, first: string, more: string)
    requires parts != [] && first == ""
    ensures var all := parts[..|parts| - 1] + [first + more]; all[|all| - 1] == more
  {
  }

  lemma SlashesAround(front: string)
    requires EndsWith(front, "/") && StartsWith(front, "/")
    ensures front != "" && !IsBlank(front[0]) && !IsBlank(front[|front| - 1])
  {
    assert front[0] == front[..1][0] == '/' && front[|front| - 1] == front[|front| - 1..][0] == '/';
  }

  lemma FrontAndTrimmed(front: string, last: string, trimmed: string)
    requires |trimmed| <= |last| && trimmed == last[..|trimmed|] && front != ""
    ensures front + trimmed <= front + last && front + trimmed != ""
    ensures '/' !in last ==> '/' !in trimmed
  {
    assert forall k :: 0 <= k < |trimmed| ==> trimmed[k] == last[k];
  }

  /** A gateway path with blanks at its end, or whose last segment is not good, is resolved to
      another one. */
  lemma GatewayMoves(alias: string, b: string, front: seq<string>, behind: seq<string>)
    requires Unslashed(alias) != "" && behind != [] && AllOrdinary(front) && AllOrdinary(behind)
    requires b == Rendered(behind, false) && StartsWith(b, "/")
    requires "/" + Unslashed(alias) + b == Rendered(front + behind, false) && PlainPath("/" + Unslashed(alias) + b)
    requires EndsBlank("/" + Unslashed(alias) + b) || !GoodEnd(behind[|behind| - 1])
    ensures AliasAware("/" + Unslashed(alias) + b, Some(alias)) != (Some(b), Some("/" + Unslashed(alias) + b))
  {
    hide *;
    var p := "/" + Unslashed(alias);
    var g, last := p + b, behind[|behind| - 1];
    BothOrdinary(front, behind);
    LastOfBoth(front, behind);
    var all := front + behind;
    RenderedLast(all);
    var start := Rendered(all[..|all| - 1], true);
    RenderedTail(all[..|all| - 1], true);
    RootedStart(Tail(all[..|all| - 1], true));
    var x := ReadAgain(start, last);
    PlainIsReference(g, x);
    TrimmedIsPrefix(last);
    EndsBlankLast(start, last);
    var segs, slash := CleanEnd(x);
    Differs(segs, slash, all);
    Differs(segs, slash, behind);
    var c := Clean(x);
    AliasAwareIs(g, alias, c);
    BackendIs(c, p);
    if StartsWith(c, p + "/") {
      var rest := FromPrefix(c, p);
    }
  }

  lemma RootedStart(s: string)
    ensures StartsWith("/" + s, "/")
  {
    assert ("/" + s)[..1] == "/";
  }

  lemma LastOfBoth(front: seq<string>, behind: seq<string>)
    requires behind != [] && AllOrdinary(behind)
    ensures var all := front + behind; all != [] && all[|all| - 1] == behind[|behind| - 1]
    ensures var last := behind[|behind| - 1]; last != "" && '/' !in last
  {
    assert Ordinary(behind[|behind| - 1]);
  }

  /** The gateway path is the alias and the backend path.  Resolving it again gives the same
      pair, so that prefixes do not pile up, exactly when the gateway path does not end in a
      blank, which reading a reference strips, and the reference did not uncover dots, or else
      named the alias itself. */
  lemma GatewayResolvesToItselfIff(src: string, alias: string)
    requires PlainAlias(alias) && Classified(src).Some?
    ensures var (b, g) := AliasAware(src, Some(alias));
            && b.Some? && g.Some? && g.value == "/" + Unslashed(alias) + b.value && StartsWith(b.value, "/")
            && (AliasAware(g.value, Some(alias)) == (b, g) <==>
                  !EndsBlank(g.value) && (b.value == "/" || !UncoversDots(UrlSplit(Stripped(src)).path)))
  {
    hide *;
    var a := Unslashed(alias);
    var ref := UrlSplit(Stripped(src)).path;
    var c := Clean(ref);
    AliasIs(alias);
    ClassifiedIs(src);
    SplitLacks(Stripped(src));
    CleanLacks(ref);
    AliasAwareIs(src, alias, c);
    var b := Backend(c, "/" + a);
    GatewayIsPlain(a, b, c);
    CleanSettlesIff(ref);
    if UncoversDots(ref) {
      UncoveredGateway(alias, Bared(Rejoined(ref)), c);
    } else {
      SettledGateway(alias, c);
    }
  }

  lemma AliasIs(alias: string)
    requires PlainAlias(alias)
    ensures var a := Unslashed(alias); a != "" && a[0] != '/' && AllOrdinary(Parts(a)) && Lacks(a, ENDINGS)
  {
    UnslashedStarts(alias);
    hide Unslashed, Parts;
  }

  lemma ClassifiedIs(src: string)
    requires Classified(src).Some?
    ensures Classified(src) == Some(Clean(UrlSplit(Stripped(src)).path))
  {
    hide Clean, UrlSplit, Stripped, StartsWith, Lower;
  }

  /** The settled case: only a blank at the end moves the gateway path. */
  lemma SettledGateway(alias: string, c: string)
    requires PlainAlias(alias) && Settled(c)
    requires PlainPath("/" + Unslashed(alias) + Backend(c, "/" + Unslashed(alias)))
    ensures var b := Backend(c, "/" + Unslashed(alias));
            var g := "/" + Unslashed(alias) + b;
            StartsWith(b, "/") && (AliasAware(g, Some(alias)) == (Some(b), Some(g)) <==> !EndsBlank(g))
  {
    hide *;
    var a := Unslashed(alias);
    AliasIs(alias);
    GatewaySettles(c, a);
    var b := Backend(c, "/" + a);
    var g := "/" + a + b;
    if EndsBlank(g) {
      SettledMeans(b);
      BlankIsNoSlash("/" + a, b);
      PlaceIsOrdinary(b);
      SlashedParts(a);
      SomeParts(a);
      RenderedPrefix(Parts(a), Place(b), false);
      GatewayMoves(alias, b, Parts(a), Place(b));
    } else {
      GatewayIsReference(g);
      AliasAwareIs(g, alias, g);
    }
  }

  lemma BlankIsNoSlash(p: string, b: string)
    requires StartsWith(b, "/") && EndsBlank(p + b)
    ensures !EndsWith(b, "/")
  {
    var g := p + b;
    assert g[|g| - 1] == b[|b| - 1];
    assert b != "" && b[|b| - 1..][0] == b[|b| - 1];
  }

  /** A single segment that is not good: the gateway path moves, unless it is the alias. */
  lemma UncoveredGateway(alias: string, name: string, c: string)
    requires PlainAlias(alias) && Ordinary(name) && '/' !in name && c == Rendered([name], false) && !Settled(c)
    requires PlainPath("/" + Unslashed(alias) + Backend(c, "/" + Unslashed(alias)))
    ensures var b := Backend(c, "/" + Unslashed(alias));
            var g := "/" + Unslashed(alias) + b;
            StartsWith(b, "/") && (AliasAware(g, Some(alias)) == (Some(b), Some(g)) <==> !EndsBlank(g) && b == "/")
  {
    hide *;
    var a := Unslashed(alias);
    AliasIs(alias);
    var p := "/" + a;
    var b := Backend(c, p);
    var g := p + b;
    BackendIs(c, p);
    RootFolds();
    SlashedParts(a);
    SomeParts(a);
    OneOrdinary(name);
    NameUnderAlias(name, a, c);
    if c == p {
      GatewaySettles("/", a);
      PrefixSettles(Parts(a), "/");
      EndsInSlash(p);
      BackendBack(p, "/");
      GatewayIsReference(g);
      AliasAwareIs(g, alias, g);
    } else {
      RenderedPrefix(Parts(a), [name], false);
      NothingOrdinary();
      Differs([], false, [name]);
      EmptyRendered(false);
      if GoodEnd(name) { RenderedSettles([name], false); }
      GatewayMoves(alias, b, Parts(a), [name]);
    }
  }

  lemma EndsInSlash(p: string)
    ensures !EndsBlank(p + "/")
  {
  }

  lemma OneOrdinary(name: string)
    requires Ordinary(name) && '/' !in name
    ensures AllOrdinary([name])
  {
  }

  lemma NameUnderAlias(name: string, a: string, c: string)
    requires '/' !in name && c == Rendered([name], false)
    ensures StartsWith(c, "/") && !StartsWith(c, "/" + a + "/")
  {
    OneSlashed(name);
    hide Slashed;
    assert c == "/" + name;
    assert c[..1] == "/";
    var p := "/" + a + "/";
    assert p[|p| - 1] == '/';
    assert |p| <= |c| ==> c[..|p|][|p| - 1] == c[|p| - 1] == name[|p| - 2];
  }

  // ---- References that lose their ends ---------------------------------------------------------------

  predicate SchemeLike(x: string) {
    x != "" && IsAlpha(x[0]) && forall k :: 0 <= k < |x| ==> IsSchemeChar(x[k])
  }

  /** urljoin drops the leading slash when a reference climbs over the root, and the second
      urlsplit then takes "x:" for a scheme: "../x:y" comes out as "/y", not "/x:y". */
  lemma ClimbingNameLosesItsFront(x: string, y: string)
    requires SchemeLike(x) && y != "" && Lacks(y, "/;") && Lacks(y, ENDINGS)
    ensures var ref := "../" + (x + ":" + y); Place(ref) == [x + ":" + y] && Clean(ref) == Folded(y)
  {
    hide *;
    var name := x + ":" + y;
    var ref := "../" + name;
    NameIsOrdinary(x, y);
    BaredScheme(x, y);
    ClimbJoins(name);
    ClimbParams(name);
    RejoinedIs(ref);
    AppendNothing(name);
    NameLacks(x, y);
    ReadsJoined(ref);
    SlashAtStart(name);
    SlashAtStart(y);
    TwoAreOne(y);
    CleanIs(ref);
    ReadPathIs(ref);
  }

  lemma TwoAreOne(s: string)
    ensures StartsWith(s, "//") ==> StartsWith(s, "/")
  {
    if |s| >= 2 { assert s[..2][..1] == s[..1]; }
  }

  lemma NameIsOrdinary(x: string, y: string)
    requires SchemeLike(x) && Lacks(y, "/;")
    ensures var name := x + ":" + y; Ordinary(name) && '/' !in name && ';' !in name && '/' !in y
  {
    var name := x + ":" + y;
    forall k | 0 <= k < |name| ensures name[k] !in "/;" {
      if k < |x| {
        assert name[k] == x[k];
        assert IsSchemeChar(x[k]);
      } else if k > |x| {
        assert name[k] == y[k - |x| - 1];
      }
    }
    assert name[|x|] == ':';
  }

  lemma NameLacks(x: string, y: string)
    requires SchemeLike(x) && Lacks(y, ENDINGS)
    ensures Lacks("../" + (x + ":" + y), ENDINGS)
  {
    var name := x + ":" + y;
    var ref := "../" + name;
    forall k | 0 <= k < |ref| ensures ref[k] !in ENDINGS {
      if 3 <= k < 3 + |x| {
        assert ref[k] == x[k - 3];
        assert IsSchemeChar(x[k - 3]);
      } else if k > 3 + |x| {
        assert ref[k] == y[k - |x| - 4];
      }
    }
  }

  lemma BaredScheme(x: string, y: string)
    requires SchemeLike(x)
    ensures Bared(x + ":" + y) == y
  {
    var s := x + ":" + y;
    assert s[0] == x[0];
    assert Uncontrolled(s) == s;
    forall k | 0 <= k < |x| ensures s[k] != ':' && IsSchemeChar(s[k]) {
      assert s[k] == x[k];
    }
    FindIs(s, ":", |x|);
    hide Find, Uncontrolled;
    assert HasScheme(s);
    assert s[|x| + 1..] == y;
  }

  lemma ClimbJoins(name: string)
    requires Ordinary(name) && '/' !in name
    ensures JoinedPath("../" + name) == name && Place("../" + name) == [name] && LastOf("../" + name) == name
  {
    hide *;
    var ref := "../" + name;
    ClimbParts(name);
    ClimbSegments(ref, name);
    ClimbSteps(name);
    OrdinaryOrNot(name);
    PlaceIs(ref);
    SomeParts(ref);
    OneSlashed(name);
    JoinedPathFrom(ref, name);
  }

  lemma ClimbParts(name: string)
    requires '/' !in name
    ensures Parts("../" + name) == ["..", name] && !StartsWith("../" + name, "/")
  {
    assert ".." + "/" + name == "../" + name;
    FirstPart("..", name);
    OnePart(name);
    assert ("../" + name)[..1] == ".";
  }

  lemma ClimbSegments(ref: string, name: string)
    requires Parts(ref) == ["..", name] && !StartsWith(ref, "/")
    ensures Segments(ref) == ["", "..", name]
  {
    hide Parts, StartsWith;
    var parts := ["", ""] + Parts(ref);
    assert parts == ["", "", "..", name];
    assert parts[1..3] == ["", ".."];
    assert ["", ".."][..1] == [""] && [""][..0] == [];
    assert NonEmpty([""]) == [];
    assert NonEmpty(["", ".."]) == [".."];
  }

  lemma ClimbSteps(name: string)
    requires Ordinary(name)
    ensures Resolved(["", "..", name]) == [name] && Walked([], ["..", name]) == [name]
  {
    hide Resolved, Walked;
    NoSegments();
    var three, two := ["", "..", name], ["..", name];
    OneMore(three);
    OneMore(three[..2]);
    OneMore(three[..2][..1]);
    OneMore(two);
    OneMore(two[..1]);
    assert three[..2] == ["", ".."] && ["", ".."][..1] == [""] && [""][..0] == [];
    assert two[..1] == [".."] && [".."][..0] == [];
  }

  lemma JoinedPathFrom(ref: string, name: string)
    requires Segments(ref) == ["", "..", name] && Resolved(["", "..", name]) == [name] && !IsDots(name) && name != ""
    requires Slashed([name]) == name
    ensures JoinedPath(ref) == name
  {
    hide Segments, Resolved, Slashed;
    AppendNothing([name]);
  }

  lemma ClimbParams(name: string)
    requires '/' !in name && ';' !in name
    ensures SplitParams("../" + name) == ("../" + name, "")
  {
    FindIs(name, ";", |name|);
    hide Find;
    ParamsOf("../", name);
  }

  /** The family of references that uncover dots: "../x:.;b" comes out as "/.;b", whose "." the
      next resolution takes for a directory. */
  lemma DotsComeOut(x: string, dots: string, params: string)
    requires SchemeLike(x) && IsDots(dots) && params != "" && '/' !in params && Lacks(params, ENDINGS)
    ensures var ref := "../" + (x + ":" + (dots + (";" + params)));
            UncoversDots(ref) && Clean(ref) == "/" + (dots + (";" + params))
  {
    hide *;
    var name := x + ":" + dots;
    var more := ";" + params;
    var ref := "../" + (x + ":" + (dots + more));
    DotsLack(dots);
    SemicolonFirst(params);
    SemicolonLacks();
    LacksAppends(";", params, ENDINGS);
    LacksAppends(dots, more, ENDINGS);
    NameLacks(x, dots + more);
    NameIsOrdinary(x, dots);
    BaredScheme(x, dots);
    ClimbJoins(name);
    WithMore(x, dots, params);
    RejoinedIs(ref);
    UncoversDotsIs(ref);
    NoSlashAdded(name, params);
    CleanSettlesIff(ref);
    BaredAppends(name, more);
    OneSlashed(dots + more);
    RenderedOne(dots + more);
  }

  lemma RenderedOne(name: string)
    ensures Rendered([name], false) == "/" + name
  {
    OneSlashed(name);
    AppendNothing("/" + name);
    hide Slashed;
  }

  lemma DotsLack(dots: string)
    requires IsDots(dots)
    ensures Lacks(dots, "/;") && Lacks(dots, ENDINGS)
  {
  }

  lemma NoSlashAdded(name: string, params: string)
    requires '/' !in name && '/' !in params
    ensures '/' !in name + (";" + params)
  {
  }

  lemma WithMore(x: string, dots: string, params: string)
    requires '/' !in x + ":" + dots && ';' !in x + ":" + dots && '/' !in params && params != ""
    ensures SplitParams("../" + (x + ":" + (dots + (";" + params)))) == ("../" + (x + ":" + dots), params)
  {
    hide *;
    var name := x + ":" + dots;
    MoreBehind(x, dots, ";" + params);
    NoSlashAdded(name, params);
    ParamsBehind(name, params);
    SlashedFront();
    ParamsOf("../", name + (";" + params));
  }

  lemma MoreBehind(x: string, dots: string, more: string)
    ensures x + ":" + (dots + more) == x + ":" + dots + more
  {
  }

  lemma SlashedFront()
    ensures "../"[|"../"| - 1] == '/'
  {
  }

  lemma ParamsBehind(name: string, params: string)
    requires ';' !in name
    ensures var q := name + (";" + params);
            Find(q, ";") == |name| && |name| < |q| && q[..|name|] == name && q[|name| + 1..] == params
  {
    FindIs(name + (";" + params), ";", |name|);
    hide Find;
  }

  /** And a blank at the end: "/b ?q" comes out as "/b ", which is read as "/b" the next time. */
  lemma BlankIsCutOff(name: string, query: string, alias: string)
    requires PlainAlias(alias) && name != "" && Lacks(name, "/;") && Lacks(name, ENDINGS)
    requires query != "" && !EndsBlank(query) && Unslashed(alias) != name + " "
    ensures var src := "/" + (name + " ") + ("?" + query);
            var (b, g) := AliasAware(src, Some(alias));
            b == Some("/" + (name + " ")) && g.Some? && AliasAware(g.value, Some(alias)) != (b, g)
  {
    hide *;
    var seg := name + " ";
    var path := "/" + seg;
    var src := path + ("?" + query);
    BlankName(name);
    BlankReads(path, query);
    RenderedOne(seg);
    NoParams(seg);
    OneOrdinary(seg);
    RenderedSettles([seg], false);
    SettledIsClean(path);
    var a := Unslashed(alias);
    AliasIs(alias);
    AliasAwareIs(src, alias, path);
    BackendIs(path, "/" + a);
    NameUnderAlias(seg, a, path);
    SameTailOfSlash(a, seg);
    EndsBlankAfter("/" + a + "/" + name);
    assert "/" + a + path == "/" + a + "/" + name + " ";
    GatewayResolvesToItselfIff(src, alias);
  }

  lemma SameTailOfSlash(a: string, b: string)
    ensures "/" + a == "/" + b ==> a == b
  {
    assert ("/" + a)[1..] == a && ("/" + b)[1..] == b;
  }

  lemma EndsBlankAfter(s: string)
    ensures EndsBlank(s + " ")
  {
  }

  lemma BlankName(name: string)
    requires name != "" && Lacks(name, "/;") && Lacks(name, ENDINGS)
    ensures var seg := name + " "; Ordinary(seg) && '/' !in seg && ';' !in seg && PlainPath("/" + seg)
  {
    var seg := name + " ";
    var path := "/" + seg;
    forall k | 0 <= k < |path| ensures (k > 0 ==> path[k] !in "/;") && path[k] !in ENDINGS {
      if 0 < k < |path| - 1 { assert path[k] == name[k - 1]; }
    }
    assert seg[|seg| - 1] == ' ';
    EndingsAre(path);
    assert path[..1] == "/";
    assert forall k :: 0 <= k < |seg| ==> seg[k] == path[k + 1];
    assert path[..2][1] == path[1];
  }

  /** A plain path with a query is a same-origin reference with that path. */
  lemma BlankReads(path: string, query: string)
    requires PlainPath(path) && query != "" && !EndsBlank(query)
    ensures var src := path + ("?" + query); Classified(src) == Some(Clean(path))
  {
    var src := path + ("?" + query);
    assert src[|src| - 1] == query[|query| - 1];
    assert src[0] == path[0] && path[..1][0] == path[0];
    hide *;
    PlainStarts(path);
    QueryStarts(path, query);
    NothingStripped(src);
    NotInline(src);
    QuerySplits(path, query);
    ClassifiedAs(src);
  }

  lemma QueryStarts(path: string, query: string)
    requires PlainPath(path) && query != "" && !EndsBlank(query)
    ensures var src := path + ("?" + query); StartsWith(src, "/") && !EndsBlank(src) && !StartsWith(src, "//")
  {
    var src := path + ("?" + query);
    assert src[..1] == path[..1];
    assert |path| >= 2 ==> src[..2] == path[..2];
    assert |path| == 1 ==> src[..2] == "/?";
  }

  lemma QuerySplits(path: string, query: string)
    requires PlainPath(path) && query != "" && !EndsBlank(query)
    ensures var split := UrlSplit(path + ("?" + query)); split == Split("", "", path)
  {
    hide *;
    var src, url := path + ("?" + query), path + ("?" + Cleaned(query));
    QueryStarts(path, query);
    PlainStarts(path);
    PlainLacks(path);
    CleanedAppends(path, "?" + query);
    CleanedLacks(path);
    CleanedQuery(query);
    FirstOf(src);
    CutAfter(path, "?" + Cleaned(query));
    CutQuery(Cleaned(query));
    AppendNothing(path);
    QueryFollows(path, Cleaned(query));
    FirstOf(url);
    NoSchemeAtSlash(url);
    SplitsPlain(src, url);
  }

  lemma PlainLacks(c: string)
    requires PlainPath(c)
    ensures Lacks(c, DROPPED) && Lacks(c, "#") && Lacks(c, "?")
  {
    assert forall k :: 0 <= k < |c| ==> c[k] !in "?#";
  }

  lemma CleanedQuery(query: string)
    ensures Cleaned("?" + query) == "?" + Cleaned(query)
  {
    assert ("?" + query)[1..] == query;
  }

  lemma FirstOf(s: string)
    requires StartsWith(s, "/")
    ensures s != "" && s[0] == '/' && Uncontrolled(s) == s
  {
    assert s[..1][0] == s[0];
  }

  lemma QueryFollows(path: string, rest: string)
    requires path != "" && StartsWith(path, "/") && !StartsWith(path, "//")
    ensures var url := path + ("?" + rest); StartsWith(url, "/") && !StartsWith(url, "//")
  {
    var url := path + ("?" + rest);
    assert url[..1] == path[..1];
    assert |path| >= 2 ==> url[..2] == path[..2];
    assert |path| == 1 ==> url[..2][1] == '?';
  }

  lemma SplitsPlain(src: string, url: string)
    requires Cleaned(Uncontrolled(src)) == url && !HasScheme(url) && !StartsWith(url, "//")
    ensures UrlSplit(src) == Split("", "", Cut(url).0)
  {
    hide Cleaned, Uncontrolled, HasScheme, Cut, Find;
  }

  lemma NoSchemeAtSlash(s: string)
    requires s != "" && s[0] == '/'
    ensures !HasScheme(s)
  {
    hide Find;
  }

  lemma CutQuery(rest: string)
    ensures Cut("?" + rest).0 == ""
  {
  }

  lemma ClassifiedAs(src: string)
    requires Stripped(src) == src && src != "" && !(exists k :: 0 <= k < |INLINE| && StartsWith(Lower(src), INLINE[k]))
    requires UrlSplit(src).scheme == "" && UrlSplit(src).netloc == ""
    ensures Classified(src) == Some(Clean(UrlSplit(src).path))
  {
    hide Stripped, UrlSplit, Clean, StartsWith, Lower, INLINE;
  }
}
