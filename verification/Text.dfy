/** The Python string operations the components share. */
module Text {
  /** The characters str.splitlines breaks a line at. */
  predicate IsBreak(c: char) {
    c in "\n\r" || c == '\U{0B}' || c == '\U{0C}' || ('\U{1C}' <= c <= '\U{1E}') || c == '\U{85}'
    || c == '\U{2028}' || c == '\U{2029}'
  }

  predicate OneLine(s: string) {
    forall k :: 0 <= k < |s| ==> !IsBreak(s[k])
  }

  lemma OneLineAppends(s: string, t: string)
    ensures OneLine(s + t) <==> OneLine(s) && OneLine(t)
  {
    assert forall k :: 0 <= k < |s| ==> (s + t)[k] == s[k];
    assert forall k :: 0 <= k < |t| ==> (s + t)[|s| + k] == t[k];
  }

  function LineLength(s: string): (n: nat)
    ensures n <= |s| && OneLine(s[..n]) && (n < |s| ==> IsBreak(s[n]))
  {
    if s == "" || IsBreak(s[0]) then 0 else
    var n := LineLength(s[1..]);
    assert s[..n + 1] == [s[0]] + s[1..][..n];
    n + 1
  }

  /** str.splitlines() */
  function SplitLines(s: string): seq<string>
    decreases |s|
  {
    if s == "" then [] else
    var n := LineLength(s);
    if n == |s| then [s]
    else [s[..n]] + SplitLines(s[n + (if s[n] == '\r' && n + 1 < |s| && s[n + 1] == '\n' then 2 else 1)..])
  }

  function JoinedLines(lines: seq<string>): string {
    if lines == [] then "" else if |lines| == 1 then lines[0] else lines[0] + "\n" + JoinedLines(lines[1..])
  }

  predicate StartsWith(s: string, prefix: string) {
    |prefix| <= |s| && s[..|prefix|] == prefix
  }

  predicate EndsWith(s: string, suffix: string) {
    |suffix| <= |s| && s[|s| - |suffix|..] == suffix
  }

  lemma {:induction false} LineLengthIs(s: string, n: nat)
    requires n <= |s| && OneLine(s[..n]) && (n < |s| ==> IsBreak(s[n]))
    ensures LineLength(s) == n
    decreases n
  {
    if n > 0 {
      assert s[..n][0] == s[0];
      assert s[1..][..n - 1] == s[..n][1..];
      LineLengthIs(s[1..], n - 1);
    }
  }

  lemma FirstLine(line: string, rest: string)
    requires OneLine(line)
    ensures SplitLines(line + "\n" + rest) == [line] + SplitLines(rest)
  {
    var s := line + "\n" + rest;
    assert s[|line|] == '\n' && s[..|line|] == line;
    LineLengthIs(s, |line|);
    assert s[|line| + 1..] == rest;
  }

  lemma {:induction false} SplitGivesLines(s: string, line: string)
    requires line in SplitLines(s)
    ensures OneLine(line)
    decreases |s|
  {
    if s != "" {
      var n := LineLength(s);
      if n < |s| && line != s[..n] {
        SplitGivesLines(s[n + (if s[n] == '\r' && n + 1 < |s| && s[n + 1] == '\n' then 2 else 1)..], line);
      }
    }
  }

  predicate IsBlank(c: char) {
    IsBreak(c) || c in " \t" || c == '\U{1F}' || c == '\U{A0}' || c == '\U{1680}' || ('\U{2000}' <= c <= '\U{200A}')
    || c == '\U{202F}' || c == '\U{205F}' || c == '\U{3000}'
  }

  /** str.strip() */
  function Stripped(s: string): string
    decreases |s|
  {
    if s == "" then ""
    else if IsBlank(s[0]) then Stripped(s[1..])
    else if IsBlank(s[|s| - 1]) then Stripped(s[..|s| - 1])
    else s
  }

  lemma {:induction false} StrippedIsShorter(s: string)
    ensures |Stripped(s)| <= |s|
    ensures |Stripped(s)| == |s| <==> s == "" || (!IsBlank(s[0]) && !IsBlank(s[|s| - 1]))
    decreases |s|
  {
    if s != "" {
      if IsBlank(s[0]) {
        StrippedIsShorter(s[1..]);
      } else if IsBlank(s[|s| - 1]) {
        StrippedIsShorter(s[..|s| - 1]);
      }
    }
  }

  /** s.rstrip("\n") */
  function WithoutNewlines(s: string): string {
    if EndsWith(s, "\n") then WithoutNewlines(s[..|s| - 1]) else s
  }

  /** read_text(): every newline convention becomes "\n". */
  function AsRead(s: string): string
    decreases |s|
  {
    if s == "" then ""
    else if s[0] == '\r' then "\n" + AsRead(s[if |s| > 1 && s[1] == '\n' then 2 else 1..])
    else [s[0]] + AsRead(s[1..])
  }

  lemma {:induction false} ReadsAsIs(s: string)
    requires '\r' !in s
    ensures AsRead(s) == s
  {
    if s != "" {
      ReadsAsIs(s[1..]);
      assert s == [s[0]] + s[1..];
    }
  }

  // ---- Searching ---------------------------------------------------------------------------

  /** Where the first character of `stops` is, or the end. */
  function Find(s: string, stops: string): (n: nat)
    ensures n <= |s| && (n < |s| ==> s[n] in stops) && forall k :: 0 <= k < n ==> s[k] !in stops
  {
    if s == "" || s[0] in stops then 0 else 1 + Find(s[1..], stops)
  }

  predicate Lacks(s: string, chars: string) {
    forall k :: 0 <= k < |s| ==> s[k] !in chars
  }

  lemma FindIs(s: string, stops: string, n: nat)
    requires n <= |s| && (n < |s| ==> s[n] in stops) && forall k :: 0 <= k < n ==> s[k] !in stops
    ensures Find(s, stops) == n
  {
  }

  /** s.split("\n") */
  function Pieces(s: string): (r: seq<string>)
    ensures |r| > 0
    decreases |s|
  {
    var n := Find(s, "\n");
    if n == |s| then [s] else [s[..n]] + Pieces(s[n + 1..])
  }

  lemma OnePiece(s: string)
    requires '\n' !in s
    ensures Pieces(s) == [s]
  {
    FindIs(s, "\n", |s|);
  }

  lemma FirstPiece(first: string, rest: string)
    requires '\n' !in first
    ensures Pieces(first + "\n" + rest) == [first] + Pieces(rest)
  {
    var s := first + "\n" + rest;
    FindIs(s, "\n", |first|);
    assert s[..|first|] == first;
    assert s[|first| + 1..] == rest;
  }

  lemma {:induction false} PiecesJoin(s: string, t: string)
    ensures Pieces(s + "\n" + t) == Pieces(s) + Pieces(t)
    decreases |s|
  {
    hide *;
    var n := Find(s, "\n");
    if n == |s| {
      assert '\n' !in s;
      OnePiece(s);
      FirstPiece(s, t);
    } else {
      var first, rest := s[..n], s[n + 1..];
      assert s == first + "\n" + rest;
      FirstPiece(first, rest);
      PiecesJoin(rest, t);
      JoinAssociates(first, rest, t);
      FirstPiece(first, rest + "\n" + t);
    }
  }

  lemma JoinAssociates(a: string, b: string, c: string)
    ensures a + "\n" + b + "\n" + c == a + "\n" + (b + "\n" + c)
  {
  }

  /** Joining lines with newlines and cutting at newlines gives the lines. */
  lemma {:induction false} JoinedPieces(lines: seq<string>)
    requires lines != [] && forall k :: 0 <= k < |lines| ==> '\n' !in lines[k]
    ensures Pieces(JoinedLines(lines)) == lines
    decreases |lines|
  {
    OnePiece(lines[0]);
    if |lines| > 1 {
      PiecesJoin(lines[0], JoinedLines(lines[1..]));
      JoinedPieces(lines[1..]);
    }
  }

  /** Lines joined and ended with newlines split into the lines again. */
  lemma {:induction false} SplitJoined(lines: seq<string>)
    requires lines != [] && forall k :: 0 <= k < |lines| ==> OneLine(lines[k])
    ensures SplitLines(JoinedLines(lines) + "\n") == lines
    decreases |lines|
  {
    hide OneLine, SplitLines;
    if |lines| == 1 {
      assert lines[0] + "\n" == lines[0] + "\n" + "";
      FirstLine(lines[0], "");
      NothingToSplit();
    } else {
      var rest := JoinedLines(lines[1..]) + "\n";
      assert JoinedLines(lines) + "\n" == lines[0] + "\n" + rest;
      FirstLine(lines[0], rest);
      SplitJoined(lines[1..]);
    }
  }

  lemma NothingToSplit()
    ensures SplitLines("") == []
  {
  }
}
