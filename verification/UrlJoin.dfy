/**
Reading and joining URL references as Python 3.13's urllib.parse does, for the base "/": the
second urlsplit of a joined reference included, which is where a path can lose its front.
*/
module UrlJoin {
  import opened Text
  import opened Urls
  import opened SitePath

  // ---- Definitions ------------------------------------------------------------------------------

  predicate IsAlpha(c: char) {
    'a' <= c <= 'z' || 'A' <= c <= 'Z'
  }

  predicate IsSchemeChar(c: char) {
    IsAlpha(c) || '0' <= c <= '9' || c in "+-."
  }

  datatype Split = Split(scheme: string, netloc: string, path: string)

  /** The end of the scheme, when there is one. */
  predicate HasScheme(url: string) {
    var n := Find(url, ":");
    0 < n < |url| && IsAlpha(url[0]) && forall k :: 0 <= k < n ==> IsSchemeChar(url[k])
  }

  /** What follows the scheme, if there is one. */
  function PastScheme(url: string): string {
    if HasScheme(url) then url[Find(url, ":") + 1..] else url
  }

  /** The authority, and what follows it. */
  function Authority(rest: string): (string, string) {
    if StartsWith(rest, "//") then
      var m := 2 + Find(rest[2..], "/?#");
      (rest[2..m], rest[m..])
    else ("", rest)
  }

  /** urlsplit: the scheme, the authority and the path. */
  function UrlSplit(text: string): Split {
    var url := Cleaned(Uncontrolled(text));
    var (netloc, rest) := Authority(PastScheme(url));
    Split(if HasScheme(url) then url[..Find(url, ":")] else "", netloc, Cut(rest).0)
  }

  /** The path before the parameters of its last part, and the parameters. */
  function SplitParams(path: string): (string, string) {
    var n := LastPart(path);
    var m := n + Find(path[n..], ";");
    if m == |path| then (path, "") else (path[..m], path[m + 1..])
  }

  function NonEmpty(parts: seq<string>): (r: seq<string>)
    ensures forall k :: 0 <= k < |r| ==> r[k] != "" && r[k] in parts
  {
    if parts == [] then []
    else NonEmpty(parts[..|parts| - 1]) + if parts[|parts| - 1] == "" then [] else [parts[|parts| - 1]]
  }

  /** The segments of a path joined to "/".  Empty ones in the middle are dropped from a
      relative path, and kept in one that starts with a slash. */
  function Segments(path: string): (r: seq<string>)
    ensures r != []
  {
    if StartsWith(path, "/") then Parts(path) else
    var parts := ["", ""] + Parts(path);
    [parts[0]] + NonEmpty(parts[1..|parts| - 1]) + [parts[|parts| - 1]]
  }

  /** One segment on urljoin's way; an empty one is a step down like any other. */
  function ResolvedStep(at: seq<string>, seg: string): seq<string> {
    if seg == ".." then if at == [] then [] else at[..|at| - 1]
    else if seg == "." then at
    else at + [seg]
  }

  function Resolved(segments: seq<string>): seq<string> {
    if segments == [] then []
    else ResolvedStep(Resolved(segments[..|segments| - 1]), segments[|segments| - 1])
  }

  predicate IsDots(seg: string) {
    seg in [".", ".."]
  }

  /** The path ends where a directory is named. */
  predicate OpenEnd(path: string) {
    LastOf(path) in ["", ".", ".."]
  }

  /** What is joined again: an open end gets an empty last part. */
  function JoinedParts(path: string): seq<string> {
    var segments := Segments(path);
    Resolved(segments) + if IsDots(segments[|segments| - 1]) then [""] else []
  }

  /** The path of urljoin("/", path) for a path without parameters. */
  function JoinedPath(path: string): string {
    var joined := Slashed(JoinedParts(path));
    if joined == "" then "/" else joined
  }

  /** urljoin("/", ref), as the path and parameters given to urlunsplit. */
  function Rejoined(ref: string): string {
    var (path, params) := SplitParams(ref);
    if path == "" && params == "" then "/" else JoinedPath(path) + if params == "" then "" else ";" + params
  }

  /** urljoin("/", ref) up to the query: urlunsplit puts an empty authority before a path that
      starts with two slashes. */
  function Joined(ref: string): string {
    var joined := Rejoined(ref);
    if StartsWith(joined, "//") then "//" + joined else joined
  }

  // ---- Where a joined path leads ------------------------------------------------------------------

  /** Where urljoin says a path leads: its segments, with nothing for the empty ones. */
  function LeadsTo(path: string): seq<string> {
    NonEmpty(Resolved(Segments(path)))
  }

  predicate NoDots(parts: seq<string>) {
    forall k :: 0 <= k < |parts| ==> !IsDots(parts[k]) && '/' !in parts[k]
  }

  lemma {:induction false} ResolvedHasNoDots(segments: seq<string>)
    requires forall k :: 0 <= k < |segments| ==> '/' !in segments[k]
    ensures NoDots(Resolved(segments))
    decreases |segments|
  {
    if segments != [] {
      ResolvedHasNoDots(segments[..|segments| - 1]);
    }
  }

  lemma {:induction false} NoDotsLead(parts: seq<string>)
    requires NoDots(parts)
    ensures Walked([], parts) == NonEmpty(parts)
    decreases |parts|
  {
    if parts != [] {
      var n := |parts| - 1;
      assert !IsDots(parts[n]);
      NoDotsLead(parts[..n]);
    }
  }

  lemma SegmentsEnd(path: string)
    ensures var segments := Segments(path);
            && segments[|segments| - 1] == LastOf(path)
            && forall k :: 0 <= k < |segments| ==> '/' !in segments[k]
  {
    hide Parts, NonEmpty;
    if !StartsWith(path, "/") {
      MiddleHasNoSlash(Parts(path));
    }
  }

  lemma MiddleHasNoSlash(ps: seq<string>)
    requires ps != [] && forall k :: 0 <= k < |ps| ==> '/' !in ps[k]
    ensures var parts := ["", ""] + ps;
            var middle := NonEmpty(parts[1..|parts| - 1]);
            forall k :: 0 <= k < |middle| ==> '/' !in middle[k]
  {
    var parts := ["", ""] + ps;
    var middle := parts[1..|parts| - 1];
    assert forall k :: 0 <= k < |middle| ==> middle[k] == if k == 0 then "" else ps[k - 1];
    assert forall x :: x in middle ==> '/' !in x;
    var r := NonEmpty(middle);
    hide NonEmpty;
    forall k | 0 <= k < |r| ensures '/' !in r[k] { assert r[k] in middle; }
  }

  /** The parts of a joined path, none of them dots: it leads where urljoin's way leads, ends
      with a slash exactly when the end was open, and else keeps its last part. */
  lemma JoinedPathLeads(path: string)
    ensures var joined := JoinedPath(path);
            && NoDots(Parts(joined))
            && Place(joined) == LeadsTo(path)
            && (EndsWith(joined, "/") <==> OpenEnd(path))
            && LastOf(joined) == if OpenEnd(path) then "" else LastOf(path)
  {
    hide *;
    var segments, parts := Segments(path), JoinedParts(path);
    SegmentsEnd(path);
    ResolvedHasNoDots(segments);
    JoinedPartsEnd(path);
    PartsOfJoined(path);
    var ps := Parts(JoinedPath(path));
    NoDotsLead(ps);
    PlaceIs(JoinedPath(path));
    SomeParts(JoinedPath(path));
    EndsWhenLastIsEmpty(JoinedPath(path));
    SomethingJoined(path);
  }

  lemma SomethingJoined(path: string)
    ensures JoinedPath(path) != "" && (!OpenEnd(path) ==> LastOf(path) != "")
  {
    hide JoinedParts, LastOf;
  }

  lemma JoinedPartsEnd(path: string)
    requires NoDots(Resolved(Segments(path)))
    requires Segments(path)[|Segments(path)| - 1] == LastOf(path)
    ensures var parts := JoinedParts(path);
            && parts != [] && NoDots(parts) && NonEmpty(parts) == LeadsTo(path)
            && parts[|parts| - 1] == if OpenEnd(path) then "" else LastOf(path)
  {
    hide Segments, LastOf, Resolved;
    var parts, resolved := JoinedParts(path), Resolved(Segments(path));
    if IsDots(LastOf(path)) {
      assert parts[..|parts| - 1] == resolved;
    } else {
      ResolvedEnd(Segments(path));
      assert parts == resolved;
    }
    assert "" !in [".", ".."];
  }

  lemma ResolvedEnd(segments: seq<string>)
    requires segments != [] && !IsDots(segments[|segments| - 1])
    ensures var r := Resolved(segments); r != [] && r[|r| - 1] == segments[|segments| - 1]
  {
  }

  lemma PartsOfJoined(path: string)
    requires var parts := JoinedParts(path); parts != [] && NoDots(parts)
    ensures Parts(JoinedPath(path)) == if JoinedParts(path) == [""] then ["", ""] else JoinedParts(path)
    ensures NoDots(Parts(JoinedPath(path))) && NonEmpty(Parts(JoinedPath(path))) == NonEmpty(JoinedParts(path))
  {
    var parts := JoinedParts(path);
    hide JoinedParts, Parts, Slashed;
    PartsOfSlashed(parts);
    OnePart("");
    FirstPart("", "");
    assert "" + "/" + "" == "/";
    if Slashed(parts) == "" { assert ["", ""][..1] == [""]; }
    else if parts == [""] { OneSlashed(""); }
  }

  lemma EndsWhenLastIsEmpty(s: string)
    ensures EndsWith(s, "/") <==> s != "" && LastOf(s) == ""
  {
    LastOfIs(s);
    hide LastOf;
    if s != "" {
      assert s[|s| - 1..] == [s[|s| - 1]];
    }
  }

  lemma OneSlashed(s: string)
    ensures Slashed([s]) == s
  {
  }

  lemma LastPartIs(p: string, q: string)
    requires '/' !in q && (p == "" || p[|p| - 1] == '/')
    ensures LastPart(p + q) == |p|
  {
    hide LastPart;
    assert Lacks(q, "/");
    NoSlash(q);
    if p == "" {
      assert p + q == q;
    } else {
      LastPartAfter(p, q);
    }
  }

  lemma Behind(p: string, q: string)
    ensures (p + q)[|p|..] == q
  {
  }

  lemma {:induction false} LastOfIs(s: string)
    ensures LastOf(s) == s[LastPart(s)..]
    decreases |s|
  {
    var n := LastPart(s);
    SlashedParts(s);
    var ps := Parts(s);
    hide Parts, LastPart;
    var m := |ps| - 1;
    if m == 0 {
      NoSlash(s);
      assert ps == [s] by { assert ps == [ps[0]]; }
      assert Lacks(s, "/");
      assert s[0..] == s;
    } else {
      SlashedLast(ps[..m], ps[m]);
      assert ps == ps[..m] + [ps[m]];
      LastPartIs(Slashed(ps[..m]) + "/", ps[m]);
      Behind(Slashed(ps[..m]) + "/", ps[m]);
    }
  }

  // ---- When that is where the path leads -------------------------------------------------------------

  /** ".." is met where urljoin's way ends with an empty segment, which it takes away; folding
      takes an ordinary one. */
  predicate TakesEmpty(segments: seq<string>, m: nat)
    requires m < |segments|
  {
    var before := Resolved(segments[..m]);
    segments[m] == ".." && before != [] && before[|before| - 1] == ""
  }

  predicate AtRoot(segments: seq<string>, n: nat)
    requires n <= |segments|
  {
    NonEmpty(Resolved(segments[..n])) == []
  }

  /** Since every ".." that took an empty segment, the way has been at the root. */
  predicate MadeGood(segments: seq<string>) {
    forall m :: 0 <= m < |segments| && TakesEmpty(segments, m) ==>
      exists n :: m < n <= |segments| && AtRoot(segments, n)
  }

  /** Folding never keeps more segments than urljoin does. */
  lemma {:induction false} FoldingIsShorter(segments: seq<string>)
    ensures |Walked([], segments)| <= |NonEmpty(Resolved(segments))|
    decreases |segments|
  {
    hide Walked, Resolved;
    if segments == [] {
      NoSegments();
    } else {
      var n := |segments| - 1;
      FoldingIsShorter(segments[..n]);
      OneMore(segments);
      StepShortens(Walked([], segments[..n]), Resolved(segments[..n]), segments[n]);
    }
  }

  lemma NoSegments()
    ensures Walked([], []) == [] && Resolved([]) == []
  {
  }

  lemma OneMore(segments: seq<string>)
    requires segments != []
    ensures var n := |segments| - 1;
            && Walked([], segments) == Stepped(Walked([], segments[..n]), segments[n])
            && Resolved(segments) == ResolvedStep(Resolved(segments[..n]), segments[n])
  {
  }

  /** One segment, for both ways. */
  lemma StepShortens(walked: seq<string>, resolved: seq<string>, seg: string)
    requires |walked| <= |NonEmpty(resolved)|
    ensures var (walked', resolved') := (Stepped(walked, seg), ResolvedStep(resolved, seg));
            var empties := seg == ".." && resolved != [] && resolved[|resolved| - 1] == "";
            && |walked'| <= |NonEmpty(resolved')|
            && (NonEmpty(resolved') != [] && (empties || |walked| < |NonEmpty(resolved)|) ==>
                  |walked'| < |NonEmpty(resolved')|)
            && (!empties && walked == NonEmpty(resolved) ==> walked' == NonEmpty(resolved'))
  {
    if seg != ".." && seg != "." {
      assert (resolved + [seg])[..|resolved|] == resolved;
    }
  }

  /** Once ".." has taken an empty segment, folding keeps fewer until the way is at the root. */
  lemma {:induction false} StaysShorter(segments: seq<string>, m: nat, n: nat)
    requires m < n <= |segments| && TakesEmpty(segments, m)
    requires forall l :: m < l <= n ==> !AtRoot(segments, l)
    ensures |Walked([], segments[..n])| < |NonEmpty(Resolved(segments[..n]))|
    decreases n
  {
    hide Walked, Resolved, NonEmpty;
    assert segments[..n][..n - 1] == segments[..n - 1] && segments[..n][n - 1] == segments[n - 1];
    OneMore(segments[..n]);
    assert !AtRoot(segments, n);
    FoldingIsShorter(segments[..n - 1]);
    if m < n - 1 {
      StaysShorter(segments, m, n - 1);
    }
    StepShortens(Walked([], segments[..n - 1]), Resolved(segments[..n - 1]), segments[n - 1]);
  }

  lemma {:induction false} AgreesWhenMadeGood(segments: seq<string>)
    requires MadeGood(segments)
    ensures NonEmpty(Resolved(segments)) == Walked([], segments)
    decreases |segments|
  {
    hide Walked, Resolved;
    FoldingIsShorter(segments);
    assert segments[..|segments|] == segments;
    if segments == [] {
      NoSegments();
    } else if !AtRoot(segments, |segments|) {
      var n := |segments| - 1;
      var before := segments[..n];
      forall m | 0 <= m < n && TakesEmpty(before, m) ensures exists l :: m < l <= n && AtRoot(before, l) {
        assert before[..m] == segments[..m];
        assert TakesEmpty(segments, m);
        var l :| m < l <= |segments| && AtRoot(segments, l);
        assert before[..l] == segments[..l];
        assert AtRoot(before, l);
      }
      AgreesWhenMadeGood(before);
      assert !TakesEmpty(segments, n);
      OneMore(segments);
      StepShortens(Walked([], before), Resolved(before), segments[n]);
    }
  }

  /** urljoin's way through the segments leads where folding them leads exactly when it has been
      at the root since every ".." that took an empty segment. */
  lemma AgreesIff(segments: seq<string>)
    ensures NonEmpty(Resolved(segments)) == Walked([], segments) <==> MadeGood(segments)
  {
    if MadeGood(segments) {
      AgreesWhenMadeGood(segments);
    } else {
      var m :| 0 <= m < |segments| && TakesEmpty(segments, m)
               && forall n :: m < n <= |segments| ==> !AtRoot(segments, n);
      StaysShorter(segments, m, |segments|);
      assert segments[..|segments|] == segments;
    }
  }

  /** Nothing empty but the first, and perhaps the last. */
  predicate EmptyAtEnds(segments: seq<string>) {
    forall k :: 0 < k < |segments| - 1 ==> segments[k] != ""
  }

  lemma {:induction false} ResolvedIsEmptyFirst(segments: seq<string>)
    requires forall k :: 0 < k < |segments| ==> segments[k] != ""
    ensures var r := Resolved(segments); forall k :: 0 < k < |r| ==> r[k] != ""
    decreases |segments|
  {
    hide Resolved;
    NoSegments();
    if segments != [] {
      ResolvedIsEmptyFirst(segments[..|segments| - 1]);
      OneMore(segments);
      assert |segments| == 1 ==> segments[..0] == [];
    }
  }

  lemma EmptyAtEndsIsMadeGood(segments: seq<string>)
    requires EmptyAtEnds(segments)
    ensures MadeGood(segments)
  {
    forall m | 0 <= m < |segments| && TakesEmpty(segments, m)
      ensures exists n :: m < n <= |segments| && AtRoot(segments, n)
    {
      var before := segments[..m];
      ResolvedIsEmptyFirst(before);
      assert segments[..m + 1][..m] == before;
      OneMore(segments[..m + 1]);
      assert Resolved(segments[..m + 1]) == [];
      assert AtRoot(segments, m + 1);
    }
  }

  lemma {:induction false} NonEmptyLeads(at: seq<string>, parts: seq<string>)
    ensures Walked(at, NonEmpty(parts)) == Walked(at, parts)
    decreases |parts|
  {
    hide Stepped;
    if parts != [] {
      var n := |parts| - 1;
      var kept := NonEmpty(parts[..n]);
      NonEmptyLeads(at, parts[..n]);
      EmptyStep(Walked(at, kept));
      if parts[n] == "" {
        AppendNothing(kept);
      } else {
        WalksOn(at, kept, [parts[n]]);
        OneStep(Walked(at, kept), parts[n]);
      }
    }
  }

  lemma RelativeSegments(path: string)
    requires !StartsWith(path, "/")
    ensures EmptyAtEnds(Segments(path)) && Walked([], Segments(path)) == Place(path)
  {
    var ps := Parts(path);
    var n := |ps| - 1;
    var middle := NonEmpty([""] + ps[..n]);
    assert (["", ""] + ps)[1..n + 2] == [""] + ps[..n];
    assert Segments(path) == [""] + middle + [ps[n]];
    hide Parts, Segments, Walked, Stepped, NonEmpty;
    WalksOn([], [""] + middle, [ps[n]]);
    WalksOn([], [""], middle);
    OneStep([], "");
    EmptyStep([]);
    NonEmptyLeads([], [""] + ps[..n]);
    WalksOn([], [""], ps[..n]);
    assert ps == ps[..n] + [ps[n]];
    WalksOn([], ps[..n], [ps[n]]);
  }

  /** A joined path leads where the path leads: always when it is relative, and when it starts
      with a slash exactly as above. */
  lemma LeadsToPlaceIff(path: string)
    ensures LeadsTo(path) == Place(path) <==> !StartsWith(path, "/") || MadeGood(Parts(path))
  {
    hide MadeGood, Walked, Resolved, NonEmpty;
    AgreesIff(Segments(path));
    if !StartsWith(path, "/") {
      RelativeSegments(path);
      EmptyAtEndsIsMadeGood(Segments(path));
    }
  }

  /** A path with an empty segment that ".." takes: urljoin keeps the part before it, which
      folding drops. */
  lemma EmptySegmentIsTaken(a: string, b: string)
    requires Ordinary(a) && Ordinary(b) && '/' !in a && '/' !in b
    ensures var path := "/" + a + "//../" + b; LeadsTo(path) == [a, b] && Place(path) == [b]
    ensures JoinedPath("/" + a + "//../" + b) == "/" + a + "/" + b
  {
    hide *;
    TakenParts(a, b);
    var segments := ["", a, "", "..", b];
    StepsOfFive(segments);
    NoSegments();
    NotDots(a);
    NotDots(b);
    NonEmptyThree(a, b);
    StepsTaken(a, b);
    PlaceIs("/" + a + "//../" + b);
    ThreeJoined("/" + a + "//../" + b, a, b);
  }

  lemma TwoSlashed(a: string, b: string)
    ensures Slashed([a, b]) == a + "/" + b
  {
    assert [a, b][1..] == [b];
  }

  lemma ThreeJoined(path: string, a: string, b: string)
    requires Resolved(Segments(path)) == ["", a, b] && Segments(path) == ["", a, "", "..", b] && !IsDots(b)
    ensures JoinedPath(path) == "/" + a + "/" + b
  {
    hide Segments, Resolved;
    var three := ["", a, b];
    AppendNothing(three);
    TwoSlashed(a, b);
    assert three == [""] + [a, b];
    SlashedFirst("", [a, b]);
    assert "" + "/" + (a + "/" + b) == "/" + a + "/" + b;
  }

  lemma NotDots(seg: string)
    requires Ordinary(seg)
    ensures !IsDots(seg) && seg != "" && seg != "." && seg != ".."
  {
  }

  lemma TakenParts(a: string, b: string)
    requires '/' !in a && '/' !in b
    ensures var path := "/" + a + "//../" + b;
            Parts(path) == Segments(path) == ["", a, "", "..", b] && LeadsTo(path) == NonEmpty(Resolved(Parts(path)))
  {
    hide *;
    var path := "/" + a + "//../" + b;
    TakenSplits(a, b);
    NoSlashInDots();
    FirstPart("", a + "/" + ("" + "/" + (".." + "/" + b)));
    FirstPart(a, "" + "/" + (".." + "/" + b));
    FirstPart("", ".." + "/" + b);
    FirstPart("..", b);
    OnePart(b);
    assert [""] + ([a] + ([""] + ([".."] + [b]))) == ["", a, "", "..", b];
    RootedSegments(path);
  }

  lemma NoSlashInDots()
    ensures '/' !in "" && '/' !in ".."
  {
  }

  lemma TakenSplits(a: string, b: string)
    ensures var path := "/" + a + "//../" + b;
            path == "" + "/" + (a + "/" + ("" + "/" + (".." + "/" + b))) && StartsWith(path, "/")
  {
    var path := "/" + a + "//../" + b;
    assert path[..1] == "/";
  }

  lemma RootedSegments(path: string)
    requires StartsWith(path, "/")
    ensures Segments(path) == Parts(path) && LeadsTo(path) == NonEmpty(Resolved(Parts(path)))
  {
    hide Parts, NonEmpty, Resolved, StartsWith;
  }

  lemma StepsOfFive(segments: seq<string>)
    requires |segments| == 5
    ensures Resolved(segments) == ResolvedStep(ResolvedStep(ResolvedStep(ResolvedStep(ResolvedStep([], segments[0]),
                                               segments[1]), segments[2]), segments[3]), segments[4])
    ensures Walked([], segments) == Stepped(Stepped(Stepped(Stepped(Stepped([], segments[0]),
                                            segments[1]), segments[2]), segments[3]), segments[4])
  {
    hide Resolved, Walked, Stepped, ResolvedStep;
    NoSegments();
    OneMore(segments);
    OneMore(segments[..4]);
    OneMore(segments[..3]);
    OneMore(segments[..2]);
    OneMore(segments[..1]);
    assert segments[..4][..3] == segments[..3] && segments[..3][..2] == segments[..2]
           && segments[..2][..1] == segments[..1] && segments[..1][..0] == [];
  }

  lemma StepsTaken(a: string, b: string)
    requires a !in ["", ".", ".."] && b !in ["", ".", ".."]
    ensures ResolvedStep(ResolvedStep(ResolvedStep(ResolvedStep(ResolvedStep([], ""), a), ""), ".."), b) == ["", a, b]
    ensures Stepped(Stepped(Stepped(Stepped(Stepped([], ""), a), ""), ".."), b) == [b]
  {
  }

  lemma NonEmptyThree(a: string, b: string)
    requires a != "" && b != ""
    ensures NonEmpty(["", a, b]) == [a, b]
  {
    assert ["", a, b][..2] == ["", a] && ["", a][..1] == [""] && [""][..0] == [];
    assert NonEmpty([""]) == [];
    assert NonEmpty(["", a]) == [a];
  }

  // ---- No character comes from nowhere --------------------------------------------------------------

  const ENDINGS := "?#\t\r\n"

  predicate AllLack(parts: seq<string>, chars: string) {
    forall k :: 0 <= k < |parts| ==> Lacks(parts[k], chars)
  }

  lemma LacksAppends(s: string, t: string, chars: string)
    ensures Lacks(s + t, chars) <==> Lacks(s, chars) && Lacks(t, chars)
  {
    var st := s + t;
    if Lacks(st, chars) {
      assert forall k :: 0 <= k < |s| ==> s[k] == st[k];
      assert forall k :: 0 <= k < |t| ==> t[k] == st[|s| + k];
    }
  }

  lemma {:induction false} PartsLack(s: string, chars: string)
    requires Lacks(s, chars)
    ensures AllLack(Parts(s), chars)
    decreases |s|
  {
    hide *;
    if '/' in s {
      var first, rest := SplitAtFirst(s);
      FirstPart(first, rest);
      LacksAppends(first + "/", rest, chars);
      LacksAppends(first, "/", chars);
      PartsLack(rest, chars);
      OneLacks(first, Parts(rest), chars);
    } else {
      OnePart(s);
      OneLacks(s, [], chars);
      NoneLack(chars);
      AppendNothing([s]);
    }
  }

  lemma NoneLack(chars: string)
    ensures AllLack([], chars)
  {
  }

  lemma OneLacks(first: string, rest: seq<string>, chars: string)
    ensures AllLack([first] + rest, chars) <==> Lacks(first, chars) && AllLack(rest, chars)
  {
    hide Lacks;
    var all := [first] + rest;
    if AllLack(all, chars) {
      assert all[0] == first;
      assert forall k :: 0 <= k < |rest| ==> rest[k] == all[k + 1];
    }
  }

  lemma {:induction false} WalkedLacks(at: seq<string>, parts: seq<string>, chars: string)
    requires AllLack(at, chars) && AllLack(parts, chars)
    ensures AllLack(Walked(at, parts), chars)
    decreases |parts|
  {
    hide Lacks;
    if parts != [] {
      WalkedLacks(at, parts[..|parts| - 1], chars);
    }
  }

  lemma {:induction false} SlashedLacks(parts: seq<string>, chars: string)
    requires AllLack(parts, chars) && '/' !in chars
    ensures Lacks(Slashed(parts), chars)
    decreases |parts|
  {
    hide *;
    if parts == [] {
      NothingSlashed();
      NothingLacks(chars);
    } else {
      var first, rest := parts[0], parts[1..];
      assert parts == [first] + rest;
      OneLacks(first, rest, chars);
      SlashLacks(chars);
      if rest == [] {
        assert parts == [first];
        OneSlashed(first);
      } else {
        SlashedFirst(first, rest);
        SlashedLacks(rest, chars);
        LacksAppends(first + "/", Slashed(rest), chars);
        LacksAppends(first, "/", chars);
      }
    }
  }

  lemma NothingLacks(chars: string)
    ensures Lacks("", chars)
  {
  }

  lemma SlashLacks(chars: string)
    requires '/' !in chars
    ensures Lacks("/", chars)
  {
  }

  lemma NothingSlashed()
    ensures Slashed([]) == ""
  {
  }

  lemma {:induction false} ResolvedLacks(segments: seq<string>, chars: string)
    requires AllLack(segments, chars)
    ensures AllLack(Resolved(segments), chars)
    decreases |segments|
  {
    hide Lacks;
    if segments != [] {
      ResolvedLacks(segments[..|segments| - 1], chars);
    }
  }

  lemma {:induction false} NonEmptyLacks(parts: seq<string>, chars: string)
    requires AllLack(parts, chars)
    ensures AllLack(NonEmpty(parts), chars)
    decreases |parts|
  {
    hide Lacks;
    if parts != [] {
      NonEmptyLacks(parts[..|parts| - 1], chars);
    }
  }

  lemma SegmentsLack(path: string, chars: string)
    requires Lacks(path, chars)
    ensures AllLack(Segments(path), chars)
  {
    PartsLack(path, chars);
    NothingLacks(chars);
    hide Parts, Lacks;
    if !StartsWith(path, "/") {
      var parts := ["", ""] + Parts(path);
      NonEmptyLacks(parts[1..|parts| - 1], chars);
    }
  }

  lemma JoinedPathLacks(path: string, chars: string)
    requires Lacks(path, chars) && '/' !in chars
    ensures Lacks(JoinedPath(path), chars)
  {
    hide Segments, Slashed, Resolved, Lacks;
    SegmentsLack(path, chars);
    ResolvedLacks(Segments(path), chars);
    NothingLacks(chars);
    SlashLacks(chars);
    SlashedLacks(JoinedParts(path), chars);
  }

  lemma SplitParamsLacks(ref: string, chars: string)
    requires Lacks(ref, chars)
    ensures Lacks(SplitParams(ref).0, chars) && Lacks(SplitParams(ref).1, chars)
  {
  }

  lemma RejoinedLacks(ref: string)
    requires Lacks(ref, ENDINGS)
    ensures Lacks(Rejoined(ref), ENDINGS)
  {
    SplitParamsLacks(ref, ENDINGS);
    var (path, params) := SplitParams(ref);
    hide SplitParams, JoinedPath, Lacks;
    JoinedPathLacks(path, ENDINGS);
    SlashLacks(ENDINGS);
    NothingLacks(ENDINGS);
    SemicolonLacks();
    LacksAppends(";", params, ENDINGS);
    LacksAppends(JoinedPath(path), if params == "" then "" else ";" + params, ENDINGS);
  }

  lemma SemicolonLacks()
    ensures Lacks(";", ENDINGS)
  {
  }

  /** A path that urlsplit gives has no character that ends it. */
  lemma SplitLacks(text: string)
    ensures Lacks(UrlSplit(text).path, ENDINGS)
  {
    var url := Cleaned(Uncontrolled(text));
    CleanedLacks(Uncontrolled(text));
    hide Cleaned, Uncontrolled, Cut, PastScheme, Authority;
    PastSchemeIsEnd(url);
    LacksEnd(url, PastScheme(url), DROPPED);
    AuthorityIsFront(PastScheme(url));
    LacksEnd(PastScheme(url), Authority(PastScheme(url)).1, DROPPED);
    CutIsShorter(Authority(PastScheme(url)).1);
  }

  lemma PastSchemeIsEnd(url: string)
    ensures var u := PastScheme(url); EndsWith(url, u) && '/' !in url[..|url| - |u|]
  {
    hide Find;
    if HasScheme(url) {
      assert forall k :: 0 <= k <= Find(url, ":") ==> url[k] != '/';
    }
  }

  lemma AuthorityIsFront(rest: string)
    ensures var u := Authority(rest).1; EndsWith(rest, u)
    ensures Lacks(rest, ENDINGS) && StartsWith(rest, "//") ==>
              Authority(rest).1 == "" || StartsWith(Authority(rest).1, "/")
  {
    if StartsWith(rest, "//") {
      var n := 2 + Find(rest[2..], "/?#");
      assert n < |rest| ==> rest[n] == rest[2..][n - 2] && rest[n] in "/?#";
      hide Find;
      if n < |rest| && Lacks(rest, ENDINGS) {
        assert rest[n] !in ENDINGS;
        assert rest[n..][..1] == [rest[n]];
      }
    }
  }

  lemma LacksTail(s: string, n: nat, chars: string)
    requires n <= |s| && Lacks(s, chars)
    ensures Lacks(s[n..], chars)
  {
  }

  lemma LacksEnd(s: string, u: string, chars: string)
    requires EndsWith(s, u) && Lacks(s, chars)
    ensures Lacks(u, chars)
  {
    LacksTail(s, |s| - |u|, chars);
  }

  lemma EndingsAre(s: string)
    requires Lacks(s, ENDINGS)
    ensures Lacks(s, "?#") && Lacks(s, DROPPED)
  {
    assert forall c: char :: c in "?#" || c in DROPPED ==> c in ENDINGS;
  }

  // ---- Reading the joined reference -------------------------------------------------------------------

  /** What urlsplit leaves of a text: without blanks in front, and without a scheme. */
  function Bared(s: string): string {
    PastScheme(Uncontrolled(s))
  }

  /** The joined reference is read as the path it is: it starts with a slash, or it has no
      blanks in front and nothing that reads as a scheme. */
  predicate Kept(ref: string) {
    StartsWith(Rejoined(ref), "/") || Bared(Rejoined(ref)) == Rejoined(ref)
  }

  lemma {:induction false} UncontrolledIsEnd(s: string)
    ensures var u := Uncontrolled(s); EndsWith(s, u) && '/' !in s[..|s| - |u|]
    decreases |s|
  {
    if s != "" && s[0] <= ' ' {
      UncontrolledIsEnd(s[1..]);
      var n := |s| - |Uncontrolled(s)|;
      assert s[..n] == [s[0]] + s[1..][..n - 1];
    }
  }

  lemma BaredIsEnd(s: string)
    ensures var u := Bared(s); EndsWith(s, u) && '/' !in s[..|s| - |u|]
  {
    var u := Uncontrolled(s);
    UncontrolledIsEnd(s);
    PastSchemeIsEnd(u);
    hide Uncontrolled, PastScheme;
    var m, n := |s| - |u|, |u| - |PastScheme(u)|;
    forall k | 0 <= k < m + n ensures s[k] != '/' {
      if k < m { assert s[k] in s[..m]; } else { assert s[k] == s[m..][k - m] == u[k - m] && u[k - m] in u[..n]; }
    }
    assert s[m + n..] == s[m..][n..];
  }

  lemma SplitIs(text: string)
    requires Cleaned(Uncontrolled(text)) == Uncontrolled(text)
    ensures UrlSplit(text).path == Cut(Authority(Bared(text)).1).0
  {
    hide Cut, Authority, PastScheme, HasScheme, Find;
  }

  /** urlsplit on a text without characters that end a path. */
  lemma SplitsLacking(text: string)
    requires Lacks(text, ENDINGS)
    ensures UrlSplit(text).path == Authority(Bared(text)).1
  {
    hide *;
    UncontrolledIsEnd(text);
    EndingsAre(text);
    LacksEnd(text, Uncontrolled(text), DROPPED);
    CleanedLacks(Uncontrolled(text));
    BaredIsEnd(text);
    SplitIs(text);
    var rest := Bared(text);
    LacksEnd(text, rest, "?#");
    AuthorityIsFront(rest);
    LacksEnd(rest, Authority(rest).1, "?#");
    CutName(Authority(rest).1);
  }

  lemma BaredRooted(s: string)
    requires StartsWith(s, "/")
    ensures Bared(s) == s
  {
    assert s[0] == s[..1][0] == '/';
    hide Find;
  }

  /** The path read from a joined reference: all of it when it starts with a slash; else what is
      left in front of a slash or without one. */
  lemma ReadsJoined(ref: string)
    requires Lacks(ref, ENDINGS)
    ensures var joined, path := Rejoined(ref), UrlSplit(Joined(ref)).path;
            if StartsWith(joined, "/") then path == joined
            else if StartsWith(Bared(joined), "//") then path == "" || StartsWith(path, "/")
            else path == Bared(joined)
    ensures var joined, path := Rejoined(ref), UrlSplit(Joined(ref)).path;
            EndsWith(joined, path)
  {
    RejoinedLacks(ref);
    var joined := Rejoined(ref);
    JoinedIs(ref);
    hide *;
    if StartsWith(joined, "//") {
      SlashesRead(joined);
    } else {
      SplitsLacking(joined);
      if StartsWith(joined, "/") {
        BaredRooted(joined);
        OneSlashOnly(joined);
      }
      BaredIsEnd(joined);
      var rest := Bared(joined);
      AuthorityIsFront(rest);
      LacksEnd(joined, rest, ENDINGS);
      OneWay(rest);
      EndOfEnd(joined, rest, Authority(rest).1);
    }
  }

  lemma JoinedIs(ref: string)
    ensures Joined(ref) == if StartsWith(Rejoined(ref), "//") then "//" + Rejoined(ref) else Rejoined(ref)
    ensures StartsWith(Rejoined(ref), "//") ==> StartsWith(Rejoined(ref), "/")
  {
    var joined := Rejoined(ref);
    hide Rejoined;
    if StartsWith(joined, "//") { assert joined[..1] == joined[..2][..1] == "/"; }
  }

  lemma OneSlashOnly(s: string)
    requires !StartsWith(s, "//")
    ensures Authority(s).1 == s
  {
  }

  lemma OneWay(rest: string)
    ensures !StartsWith(rest, "//") ==> Authority(rest).1 == rest
  {
  }

  lemma EndOfEnd(s: string, t: string, u: string)
    requires EndsWith(s, t) && EndsWith(t, u)
    ensures EndsWith(s, u)
  {
    assert s[|s| - |u|..] == s[|s| - |t|..][|t| - |u|..];
  }

  lemma SlashesRead(joined: string)
    requires StartsWith(joined, "//") && Lacks(joined, ENDINGS)
    ensures UrlSplit("//" + joined).path == joined && EndsWith(joined, joined)
  {
    var text := "//" + joined;
    TwoSlashesLack();
    LacksAppends("//", joined, ENDINGS);
    assert text[..1] == "/";
    BaredRooted(text);
    SplitsLacking(text);
    assert text[..2] == "//" && text[2..] == joined;
    assert joined[0] == joined[..2][0] == '/';
    FindIs(joined, "/?#", 0);
    hide Find, UrlSplit, Bared;
  }

  lemma TwoSlashesLack()
    ensures Lacks("//", ENDINGS)
  {
  }

  /** Whether the joined reference is read as the path it is. */
  lemma KeptIff(ref: string)
    requires Lacks(ref, ENDINGS)
    ensures Kept(ref) <==> UrlSplit(Joined(ref)).path == Rejoined(ref)
  {
    ReadsJoined(ref);
    BaredIsEnd(Rejoined(ref));
    hide Rejoined, UrlSplit, Joined, Bared;
    var joined := Rejoined(ref);
    if !StartsWith(joined, "/") && StartsWith(Bared(joined), "//") {
      assert Bared(joined)[..1] == Bared(joined)[..2][..1] == "/";
    }
  }
}
