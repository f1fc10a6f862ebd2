/** Reading a URL as Python's urllib does: the pieces the components share. */
module Urls {
  import opened Text

  /** Where the part after the last slash starts. */
  function LastPart(s: string): (n: nat)
    ensures n <= |s| && (n > 0 ==> s[n - 1] == '/') && '/' !in s[n..]
  {
    if s == "" then 0
    else if s[|s| - 1] == '/' then |s|
    else LastPart(s[..|s| - 1])
  }

  function LowerChar(c: char): char {
    if 'A' <= c <= 'Z' then c - 'A' + 'a' else c
  }

  /** str.lower() on the letters that matter here, A to Z. */
  function Lower(s: string): (r: string)
    ensures |r| == |s|
  {
    seq(|s|, i requires 0 <= i < |s| => LowerChar(s[i]))
  }

  /** Tabs and line ends, which urlsplit drops from anywhere in the URL. */
  const DROPPED := "\t\r\n"

  function Cleaned(s: string): string {
    if s == "" then "" else (if s[0] in DROPPED then "" else [s[0]]) + Cleaned(s[1..])
  }

  /** Control characters and spaces, which urlsplit drops at the front. */
  function Uncontrolled(s: string): string {
    if s != "" && s[0] <= ' ' then Uncontrolled(s[1..]) else s
  }

  /** What stands before the query and the fragment, and the query. */
  function Cut(u: string): (string, string) {
    var url := u[..Find(u, "#")];
    var q := Find(url, "?");
    (url[..q], if q < |url| then url[q + 1..] else "")
  }

  function Suffix(query: string): string {
    if query == "" then "" else "?" + query
  }

  predicate EndsBlank(s: string) {
    s != "" && IsBlank(s[|s| - 1])
  }

  /** str.rstrip() */
  function Trimmed(s: string): string {
    if EndsBlank(s) then Trimmed(s[..|s| - 1]) else s
  }

  lemma {:induction false} TrimmedIsPrefix(s: string)
    ensures |Trimmed(s)| <= |s| && Trimmed(s) == s[..|Trimmed(s)|]
    ensures Trimmed(s) == s <==> !EndsBlank(s)
    decreases |s|
  {
    if EndsBlank(s) {
      TrimmedIsPrefix(s[..|s| - 1]);
    }
  }

  /** Stripping what starts and ends without a blank only trims what follows. */
  lemma {:induction false} StrippedAfter(p: string, s: string)
    requires p != "" && !IsBlank(p[0]) && !IsBlank(p[|p| - 1])
    ensures Stripped(p + s) == p + Trimmed(s)
    decreases |s|
  {
    if s == "" {
      assert p + s == p;
    } else if EndsBlank(s) {
      assert (p + s)[..|p + s| - 1] == p + s[..|s| - 1];
      StrippedAfter(p, s[..|s| - 1]);
    }
  }

  lemma {:induction false} CleanedAppends(s: string, t: string)
    ensures Cleaned(s + t) == Cleaned(s) + Cleaned(t)
    decreases |s|
  {
    if s == "" {
      assert s + t == t;
    } else {
      assert (s + t)[1..] == s[1..] + t;
      CleanedAppends(s[1..], t);
    }
  }

  lemma {:induction false} CleanedLacks(s: string)
    ensures Lacks(Cleaned(s), DROPPED) && |Cleaned(s)| <= |s|
    ensures Lacks(s, DROPPED) ==> Cleaned(s) == s
  {
    if s != "" {
      CleanedLacks(s[1..]);
      if Lacks(s, DROPPED) {
        assert Lacks(s[1..], DROPPED) && s[0] !in DROPPED;
        assert s == [s[0]] + s[1..];
      }
    }
  }

  lemma FindAfter(p: string, u: string, stops: string)
    requires Lacks(p, stops)
    ensures Find(p + u, stops) == |p| + Find(u, stops)
  {
    FindIs(p + u, stops, |p| + Find(u, stops));
  }

  lemma {:induction false} LastPartAfter(p: string, u: string)
    requires p != "" && p[|p| - 1] == '/'
    ensures LastPart(p + u) == |p| + LastPart(u)
    decreases |u|
  {
    if u == "" {
      assert p + u == p;
    } else if u[|u| - 1] != '/' {
      assert (p + u)[..|p + u| - 1] == p + u[..|u| - 1];
      LastPartAfter(p, u[..|u| - 1]);
    }
  }

  lemma CutAfter(p: string, u: string)
    requires Lacks(p, "#") && Lacks(p, "?")
    ensures Cut(p + u) == (p + Cut(u).0, Cut(u).1)
  {
    hide Find;
    FindAfter(p, u, "#");
    var n := Find(u, "#");
    var url := u[..n];
    assert (p + u)[..|p| + n] == p + url;
    FindAfter(p, url, "?");
    var q := Find(url, "?");
    assert (p + url)[..|p| + q] == p + url[..q];
    assert q < |url| ==> (p + url)[|p| + q + 1..] == url[q + 1..];
  }

  lemma NoSlash(name: string)
    ensures LastPart(name) == 0 <==> Lacks(name, "/")
  {
    var n := LastPart(name);
    if n == 0 {
      assert name[0..] == name;
      forall k | 0 <= k < |name| ensures name[k] != '/' {
        assert name[k] in name;
      }
    }
  }

  lemma CutName(name: string)
    requires Lacks(name, "?#")
    ensures Cut(name) == (name, "")
  {
    FindIs(name, "#", |name|);
    FindIs(name, "?", |name|);
    hide Find;
    assert name[..|name|] == name;
  }

  lemma CutAt(name: string, query: string)
    requires Lacks(name, "?#") && Lacks(query, "#")
    ensures Cut(name + "?" + query) == (name, query)
  {
    var t := name + "?" + query;
    FindIs(t, "#", |t|);
    assert t[..|t|] == t;
    FindIs(t, "?", |name|);
    hide Find;
    assert t[..|name|] == name && t[|name| + 1..] == query;
  }

  lemma CutIs(name: string, query: string)
    requires Lacks(name, "?#") && Lacks(query, "#")
    ensures Cut(name + Suffix(query)) == (name, query)
  {
    hide Cut, Lacks;
    if query == "" {
      CutName(name);
      assert name + Suffix(query) == name;
    } else {
      CutAt(name, query);
      assert name + Suffix(query) == name + "?" + query;
    }
  }

  lemma CutIsShorter(u: string)
    ensures var (path, query) := Cut(u); |path| + |Suffix(query)| <= |u|
    ensures var (path, query) := Cut(u); Lacks(path, "?#") && Lacks(query, "#")
    ensures var (path, query) := Cut(u); Lacks(u, DROPPED) ==> Lacks(path, DROPPED) && Lacks(query, DROPPED)
  {
  }
}
