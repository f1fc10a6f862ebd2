/** Site paths: their parts between slashes, and folding "." and ".." away. */
module SitePath {
  import opened Wrappers
  import opened Text

  // ---- Parts between slashes ----------------------------------------------------------------

  /** s.split("/") */
  function Parts(s: string): (r: seq<string>)
    ensures |r| > 0 && forall k :: 0 <= k < |r| ==> '/' !in r[k]
    decreases |s|
  {
    var n := Find(s, "/");
    if n == |s| then [s] else [s[..n]] + Parts(s[n + 1..])
  }

  /** "/".join(parts) */
  function Slashed(parts: seq<string>): string {
    if parts == [] then "" else if |parts| == 1 then parts[0] else parts[0] + "/" + Slashed(parts[1..])
  }

  lemma OnePart(s: string)
    requires '/' !in s
    ensures Parts(s) == [s]
  {
    FindIs(s, "/", |s|);
  }

  lemma FirstPart(first: string, rest: string)
    requires '/' !in first
    ensures Parts(first + "/" + rest) == [first] + Parts(rest)
  {
    var s := first + "/" + rest;
    FindIs(s, "/", |first|);
    assert s[..|first|] == first;
    assert s[|first| + 1..] == rest;
  }

  lemma {:induction false} PartsOfSlashed(parts: seq<string>)
    requires parts != [] && forall k :: 0 <= k < |parts| ==> '/' !in parts[k]
    ensures Parts(Slashed(parts)) == parts
    decreases |parts|
  {
    hide Parts;
    if |parts| == 1 {
      OnePart(parts[0]);
    } else {
      FirstPart(parts[0], Slashed(parts[1..]));
      PartsOfSlashed(parts[1..]);
    }
  }

  lemma {:induction false} SlashedParts(s: string)
    ensures Slashed(Parts(s)) == s
    decreases |s|
  {
    var n := Find(s, "/");
    if n < |s| {
      var rest := s[n + 1..];
      SlashedParts(rest);
      assert s == s[..n] + "/" + rest;
      hide Find;
      SlashedFirst(s[..n], Parts(rest));
    }
  }

  lemma SlashedFirst(first: string, rest: seq<string>)
    requires rest != []
    ensures Slashed([first] + rest) == first + "/" + Slashed(rest)
  {
    assert ([first] + rest)[1..] == rest;
  }

  lemma {:induction false} SlashedLast(parts: seq<string>, last: string)
    requires parts != []
    ensures Slashed(parts + [last]) == Slashed(parts) + "/" + last
    decreases |parts|
  {
    if |parts| == 1 {
      assert parts + [last] == [parts[0], last] && [parts[0], last][1..] == [last];
    } else {
      assert (parts + [last])[1..] == parts[1..] + [last];
      SlashedLast(parts[1..], last);
    }
  }

  // ---- Folding ---------------------------------------------------------------------------------

  predicate Ordinary(seg: string) {
    seg !in ["", ".", ".."]
  }

  predicate AllOrdinary(segs: seq<string>) {
    forall k :: 0 <= k < |segs| ==> Ordinary(segs[k]) && '/' !in segs[k]
  }

  /** One step up, nowhere, or one step down. */
  function Stepped(at: seq<string>, seg: string): seq<string> {
    if seg == ".." then if at == [] then [] else at[..|at| - 1]
    else if seg in ["", "."] then at
    else at + [seg]
  }

  /** Where the parts of a path lead from `at`; going up from the root stays there. */
  function Walked(at: seq<string>, parts: seq<string>): seq<string> {
    if parts == [] then at else Stepped(Walked(at, parts[..|parts| - 1]), parts[|parts| - 1])
  }

  /** Where a path leads from the root. */
  function Place(path: string): seq<string> {
    Walked([], Parts(path))
  }

  function Rendered(segs: seq<string>, slash: bool): string {
    "/" + Slashed(segs) + if slash && segs != [] then "/" else ""
  }

  function Folded(path: string): string {
    Rendered(Place(path), EndsWith(path, "/"))
  }

  /** _fold_site_path */
  method FoldSitePath(path: string) returns (folded: string)
    ensures folded == Folded(path)
  {
    hide Parts, Slashed;
    var segs: seq<string> := [];
    var parts := Parts(path);
    for k := 0 to |parts|
      invariant segs == Walked([], parts[..k])
    {
      assert parts[..k + 1][..k] == parts[..k];
      var seg := parts[k];
      if seg == ".." {
        if segs != [] {
          segs := segs[..|segs| - 1];
        }
      } else if seg !in ["", "."] {
        segs := segs + [seg];
      }
    }
    assert parts[..|parts|] == parts;
    folded := "/" + Slashed(segs);
    if EndsWith(path, "/") && segs != [] {
      folded := folded + "/";
    }
    assert "/" + Slashed(segs) + "" == "/" + Slashed(segs);
  }

  lemma {:induction false} WalkedIsOrdinary(at: seq<string>, parts: seq<string>)
    requires AllOrdinary(at) && forall k :: 0 <= k < |parts| ==> '/' !in parts[k]
    ensures AllOrdinary(Walked(at, parts))
    decreases |parts|
  {
    if parts != [] {
      WalkedIsOrdinary(at, parts[..|parts| - 1]);
    }
  }

  lemma {:induction false} WalksDown(at: seq<string>, segs: seq<string>)
    requires AllOrdinary(segs)
    ensures Walked(at, segs) == at + segs
    decreases |segs|
  {
    if segs != [] {
      var n := |segs| - 1;
      assert Ordinary(segs[n]);
      WalksDown(at, segs[..n]);
      assert segs == segs[..n] + [segs[n]];
    }
  }

  lemma {:induction false} WalksOn(at: seq<string>, a: seq<string>, b: seq<string>)
    ensures Walked(at, a + b) == Walked(Walked(at, a), b)
    decreases |b|
  {
    hide Stepped;
    if b == [] {
      assert a + b == a;
    } else {
      assert (a + b)[..|a + b| - 1] == a + b[..|b| - 1];
      WalksOn(at, a, b[..|b| - 1]);
    }
  }

  lemma OneStep(at: seq<string>, seg: string)
    ensures Walked(at, [seg]) == Stepped(at, seg)
  {
    assert [seg][..0] == [];
  }

  /** The parts of a rendered path. */
  lemma RenderedParts(segs: seq<string>, slash: bool)
    requires AllOrdinary(segs)
    ensures Parts(Rendered(segs, slash))
            == if segs == [] then ["", ""] else if slash then [""] + segs + [""] else [""] + segs
  {
    hide Parts;
    if segs == [] {
      assert Rendered(segs, slash) == "" + "/" + "";
      FirstPart("", "");
      OnePart("");
    } else {
      var down := [""] + segs;
      SlashedFirst("", segs);
      assert "" + "/" + Slashed(segs) == "/" + Slashed(segs);
      if slash {
        SlashedLast(down, "");
        assert Slashed(down) + "/" + "" == Slashed(down) + "/";
        PartsOfSlashed(down + [""]);
      } else {
        assert "/" + Slashed(segs) + "" == "/" + Slashed(segs);
        PartsOfSlashed(down);
      }
    }
  }

  /** A rendered path leads where its segments say. */
  lemma RenderedPlace(segs: seq<string>, slash: bool)
    requires AllOrdinary(segs)
    ensures Place(Rendered(segs, slash)) == segs
    ensures EndsWith(Rendered(segs, slash), "/") <==> slash || segs == []
  {
    RenderedParts(segs, slash);
    hide Parts, Slashed;
    OneStep([], "");
    OneStep(segs, "");
    WalksOn([], [""], segs);
    WalksDown([], segs);
    assert [] + segs == segs;
    WalksOn([], [""] + segs, [""]);
    WalksOn([], [""], [""]);
    assert ["", ""] == [""] + [""];
    RenderedEnd(segs, slash);
  }

  lemma RenderedEnd(segs: seq<string>, slash: bool)
    requires AllOrdinary(segs)
    ensures EndsWith(Rendered(segs, slash), "/") <==> slash || segs == []
  {
    var s := Rendered(segs, slash);
    if segs == [] {
      assert s == "/";
    } else if slash {
      assert s[|s| - 1..] == "/";
    } else {
      var n := |segs| - 1;
      assert segs == segs[..n] + [segs[n]];
      assert Ordinary(segs[n]) && '/' !in segs[n];
      if n > 0 { SlashedLast(segs[..n], segs[n]); } else { assert segs[..n] == []; }
      hide Slashed;
      var last := segs[n];
      assert s[|s| - 1] == last[|last| - 1] && last[|last| - 1] in last;
      assert s[|s| - 1..] == [s[|s| - 1]];
    }
  }

  /** The parts of a path that starts with a slash and has no empty, "." or ".." segment,
      but may end with a slash. */
  predicate Normal(ps: seq<string>) {
    && |ps| >= 2 && ps[0] == ""
    && (forall k :: 0 < k < |ps| - 1 ==> Ordinary(ps[k]))
    && (Ordinary(ps[|ps| - 1]) || ps[|ps| - 1] == "")
  }

  lemma RenderedIsNormal(segs: seq<string>, slash: bool)
    requires AllOrdinary(segs)
    ensures Normal(Parts(Rendered(segs, slash)))
  {
    RenderedParts(segs, slash);
    hide Parts, Rendered;
    var ps := Parts(Rendered(segs, slash));
    if segs != [] {
      assert forall k :: 0 < k <= |segs| ==> ps[k] == segs[k - 1];
    }
  }

  lemma PlaceIsOrdinary(path: string)
    ensures AllOrdinary(Place(path))
  {
    hide Parts, Walked;
    WalkedIsOrdinary([], Parts(path));
  }

  /** Folding keeps where a path leads, folding twice is folding once, and the result has no
      empty, "." or ".." segment. */
  lemma FoldedTwice(path: string)
    ensures Place(Folded(path)) == Place(path) && Folded(Folded(path)) == Folded(path)
    ensures Normal(Parts(Folded(path)))
  {
    hide Place, Parts, Rendered, Normal, EndsWith, AllOrdinary;
    PlaceIsOrdinary(path);
    RenderedPlace(Place(path), EndsWith(path, "/"));
    RenderedIsNormal(Place(path), EndsWith(path, "/"));
    if Place(path) == [] {
      RenderedRoot(EndsWith(path, "/"), EndsWith(Folded(path), "/"));
    }
  }

  lemma RenderedRoot(slash: bool, slash': bool)
    ensures Rendered([], slash) == Rendered([], slash')
  {
  }

  // ---- The last part ---------------------------------------------------------------------------

  /** The last part of a path. */
  function LastOf(path: string): string {
    Parts(path)[|Parts(path)| - 1]
  }

  lemma SomeParts(path: string)
    ensures |Parts(path)| > 0 && LastOf(path) == Parts(path)[|Parts(path)| - 1]
  {
  }

  lemma AppendNothing<T>(s: seq<T>)
    ensures s + [] == s
  {
  }

  lemma EmptyStep(at: seq<string>)
    ensures Stepped(at, "") == at
  {
  }

  lemma ConsFront<T>(first: T, ps: seq<T>)
    requires ps != []
    ensures var all := [first] + ps; all[..|all| - 1] == [first] + ps[..|ps| - 1] && all[|all| - 1] == ps[|ps| - 1]
  {
  }

  lemma ConsAppend<T>(first: T, middle: seq<T>, last: T)
    ensures [first] + (middle + [last]) == [first] + middle + [last]
  {
  }

  lemma SplitAtFirst(s: string) returns (first: string, rest: string)
    requires '/' in s
    ensures '/' !in first && s == first + "/" + rest && |rest| < |s|
  {
    var n := Find(s, "/");
    first, rest := s[..n], s[n + 1..];
  }

  lemma MoreAtTheEnd(first: string, rest: string, more: string)
    ensures first + "/" + rest + more == first + "/" + (rest + more)
  {
  }

  /** The last part of a text that ends with more. */
  lemma {:induction false} PartsGrow(s: string, more: string)
    requires '/' !in more
    ensures Parts(s + more) == Parts(s)[..|Parts(s)| - 1] + [LastOf(s) + more]
    decreases |s|
  {
    hide *;
    SomeParts(s);
    if '/' in s {
      var first, rest := SplitAtFirst(s);
      FirstPart(first, rest);
      MoreAtTheEnd(first, rest, more);
      FirstPart(first, rest + more);
      PartsGrow(rest, more);
      SomeParts(rest);
      ConsFront(first, Parts(rest));
      ConsAppend(first, Parts(rest)[..|Parts(rest)| - 1], LastOf(rest) + more);
    } else {
      OnePart(s);
      OnePart(s + more);
      assert [s][..0] + [s + more] == [s + more];
    }
  }

  /** The last segment of a path that does not end open is its last part. */
  lemma ClosedEnd(path: string)
    requires Ordinary(LastOf(path))
    ensures Place(path) != [] && Place(path)[|Place(path)| - 1] == LastOf(path)
  {
    var ps := Parts(path);
    var n := |ps| - 1;
    assert ps == ps[..n] + [ps[n]];
    hide Parts, Walked;
    WalksOn([], ps[..n], [ps[n]]);
    OneStep(Walked([], ps[..n]), ps[n]);
  }

  lemma PlaceIs(path: string)
    ensures Place(path) == Walked([], Parts(path))
  {
  }

  lemma FoldedIs(path: string)
    ensures Folded(path) == Rendered(Place(path), EndsWith(path, "/"))
  {
  }
}
