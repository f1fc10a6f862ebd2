/**
The buildProxy section of the configuration file: it is replaced as text, so that comments
and everything else in the file stay as they are.
*/
module ProxyBlock {
  import opened Wrappers
  import opened Text

  // ---- Lines with their ends ------------------------------------------------------------------

  /** The length of the first line, its end included. */
  function LineSize(s: string): (n: nat)
    requires s != ""
    ensures 0 < n <= |s|
  {
    var n := LineLength(s);
    if n == |s| then n
    else if s[n] == '\r' && n + 1 < |s| && s[n + 1] == '\n' then n + 2
    else n + 1
  }

  /** str.splitlines(keepends=True) */
  function KeepLines(s: string): (r: seq<string>)
    ensures forall k :: 0 <= k < |r| ==> r[k] != ""
    decreases |s|
  {
    if s == "" then [] else [s[..LineSize(s)]] + KeepLines(s[LineSize(s)..])
  }

  /** "".join(lines) */
  function Flat(lines: seq<string>): string {
    if lines == [] then "" else lines[0] + Flat(lines[1..])
  }

  lemma {:induction false} FlatKeeps(s: string)
    ensures Flat(KeepLines(s)) == s
    decreases |s|
  {
    if s != "" {
      hide LineSize;
      FlatKeeps(s[LineSize(s)..]);
      assert s == s[..LineSize(s)] + s[LineSize(s)..];
    }
  }

  lemma {:induction false} FlatAppends(a: seq<string>, b: seq<string>)
    ensures Flat(a + b) == Flat(a) + Flat(b)
    decreases |a|
  {
    if a == [] {
      assert a + b == b;
    } else {
      assert (a + b)[1..] == a[1..] + b;
      FlatAppends(a[1..], b);
    }
  }

  /** `a` ends a line, and `b` does not continue the end. */
  predicate EndsLine(a: string, b: string) {
    && a != "" && IsBreak(a[|a| - 1])
    && !(a[|a| - 1] == '\r' && b != "" && b[0] == '\n')
  }

  lemma FirstLineStays(a: string, b: string)
    requires EndsLine(a, b)
    ensures LineSize(a + b) == LineSize(a)
    ensures LineSize(a) < |a| ==> EndsLine(a[LineSize(a)..], b)
  {
    var n, s := LineLength(a), a + b;
    assert a[..|a|] == a;
    assert n < |a|;
    assert s[..n] == a[..n] && s[n] == a[n];
    hide IsBreak;
    LineLengthIs(s, n);
  }

  lemma Unfold(s: string)
    requires s != ""
    ensures var m := LineSize(s);
            KeepLines(s) == [s[..m]] + KeepLines(s[m..]) && s == s[..m] + s[m..] && s[..m] != ""
  {
    hide LineSize;
  }

  lemma Fold(first: string, rest: string)
    requires first != "" && LineSize(first + rest) == |first|
    ensures KeepLines(first + rest) == [first] + KeepLines(rest)
  {
    hide LineSize;
    var s := first + rest;
    assert s[..|first|] == first && s[|first|..] == rest;
  }

  lemma NoLines()
    ensures KeepLines("") == []
  {
  }

  lemma Associative<T>(a: seq<T>, b: seq<T>, c: seq<T>)
    ensures a + b + c == a + (b + c)
  {
  }

  /** Lines end where a line ends. */
  lemma {:induction false} KeepAppends(a: string, b: string)
    requires a == "" || EndsLine(a, b)
    ensures KeepLines(a + b) == KeepLines(a) + KeepLines(b)
    decreases |a|
  {
    hide *;
    NoLines();
    if a == "" {
      assert a + b == b;
    } else {
      var first, rest := a[..LineSize(a)], a[LineSize(a)..];
      Unfold(a);
      FirstLineStays(a, b);
      Associative(first, rest, b);
      Fold(first, rest + b);
      if rest == "" {
        assert rest + b == b;
        assert [first] + [] == [first];
      } else {
        KeepAppends(rest, b);
        Associative([first], KeepLines(rest), KeepLines(b));
      }
    }
  }

  lemma FirstLineAlone(s: string)
    requires s != ""
    ensures var m := LineSize(s);
            && LineSize(s[..m]) == m
            && (m < |s| ==> IsBreak(s[m - 1]) && !(s[m - 1] == '\r' && s[m] == '\n'))
  {
    var n, m := LineLength(s), LineSize(s);
    assert s[..m][..n] == s[..n];
    assert IsBreak('\n');
    hide IsBreak;
    LineLengthIs(s[..m], n);
  }

  lemma FirstLineIs(s: string)
    requires s != ""
    ensures KeepLines(s[..LineSize(s)]) == [s[..LineSize(s)]]
  {
    FirstLineAlone(s);
    hide LineSize;
    var first := s[..LineSize(s)];
    assert first[..LineSize(s)] == first && first[LineSize(s)..] == "";
  }

  /** The lines of a text, cut in two anywhere, are the lines of two texts. */
  lemma {:induction false} LinesSplit(s: string, before: seq<string>, after: seq<string>)
    requires KeepLines(s) == before + after
    ensures KeepLines(Flat(before)) == before && KeepLines(Flat(after)) == after
    ensures s == Flat(before) + Flat(after)
    ensures before != [] && after != [] ==> EndsLine(Flat(before), Flat(after))
    decreases |before|
  {
    hide *;
    NoLines();
    NothingFlat();
    FlatKeeps(s);
    if before == [] {
      assert before + after == after;
      assert "" + s == s;
    } else {
      SomeLines(s, before, after);
      var m := LineSize(s);
      var first, rest, others := s[..m], s[m..], before[1..];
      Unfold(s);
      FirstLineAlone(s);
      FirstLineIs(s);
      assert before + after == [before[0]] + (others + after);
      assert (before + after)[1..] == others + after;
      assert ([first] + KeepLines(rest))[1..] == KeepLines(rest);
      LinesSplit(rest, others, after);
      assert before == [first] + others;
      FlatOne(first, others);
      Associative(first, Flat(others), Flat(after));
      FlatEmptyIff(others, rest, after);
      JoinFirst(first, Flat(others), Flat(after));
    }
  }

  lemma NothingFlat()
    ensures Flat([]) == ""
  {
  }

  lemma SomeLines(s: string, before: seq<string>, after: seq<string>)
    requires KeepLines(s) == before + after && before != []
    ensures s != ""
  {
  }

  /** Lines are not empty. */
  lemma FlatEmptyIff(before: seq<string>, s: string, after: seq<string>)
    requires KeepLines(s) == before + after
    ensures Flat(before) == "" <==> before == []
    ensures Flat(after) == "" <==> after == []
  {
    assert before != [] ==> (before + after)[0] == before[0] != "";
    assert after != [] ==> (before + after)[|before|] == after[0] != "";
    hide KeepLines;
  }

  lemma FlatOne(first: string, lines: seq<string>)
    ensures Flat([first] + lines) == first + Flat(lines)
  {
    assert ([first] + lines)[1..] == lines;
  }

  lemma JoinFirst(first: string, p: string, q: string)
    requires first != "" && KeepLines(first) == [first]
    requires p + q != "" ==> IsBreak(first[|first| - 1]) && !(first[|first| - 1] == '\r' && (p + q)[0] == '\n')
    requires p != "" && q != "" ==> EndsLine(p, q)
    ensures KeepLines(first + p) == [first] + KeepLines(p)
    ensures q != "" ==> EndsLine(first + p, q)
  {
    hide IsBreak, KeepLines;
    if p == "" {
      assert first + p == first && p + q == q;
      NoLines();
    } else {
      assert (p + q)[0] == p[0];
      KeepAppends(first, p);
    }
  }

  // ---- The node ---------------------------------------------------------------------------------

  /** ^buildProxy:(?:\s|$) */
  predicate IsStart(line: string) {
    StartsWith(line, "buildProxy:") && (|line| == 11 || IsBlank(line[11]))
  }

  /** Blank or a comment. */
  predicate Quiet(line: string) {
    Stripped(line) == "" || Stripped(line)[0] == '#'
  }

  predicate Indented(line: string) {
    line != "" && line[0] in " \t"
  }

  /** A line that cannot belong to the node. */
  predicate Foreign(line: string) {
    !Quiet(line) && !Indented(line)
  }

  /** Where the node starts, or the end of the file. */
  function Start(lines: seq<string>): (n: nat)
    ensures n <= |lines| && (forall k :: 0 <= k < n ==> !IsStart(lines[k])) && (n < |lines| ==> IsStart(lines[n]))
  {
    if lines == [] || IsStart(lines[0]) then 0 else 1 + Start(lines[1..])
  }

  function FirstForeign(lines: seq<string>, j: nat): (u: nat)
    requires j <= |lines|
    ensures j <= u <= |lines| && (forall k :: j <= k < u ==> !Foreign(lines[k])) && (u < |lines| ==> Foreign(lines[u]))
    decreases |lines| - j
  {
    if j == |lines| || Foreign(lines[j]) then j else FirstForeign(lines, j + 1)
  }

  function WithoutQuiet(lines: seq<string>, j: nat, u: nat): (e: nat)
    requires j <= u <= |lines|
    ensures j <= e <= u && (forall k :: e <= k < u ==> Quiet(lines[k])) && (e == j || !Quiet(lines[e - 1]))
    decreases u
  {
    if u > j && Quiet(lines[u - 1]) then WithoutQuiet(lines, j, u - 1) else u
  }

  /** The node whose first line is before `j` ends after its last line of content before the
      first line that cannot belong to it. */
  function NodeEnd(lines: seq<string>, j: nat): (e: nat)
    requires j <= |lines|
    ensures j <= e <= |lines|
  {
    WithoutQuiet(lines, j, FirstForeign(lines, j))
  }

  lemma NodeEndIs(lines: seq<string>, j: nat, e: nat, u: nat)
    requires j <= e <= u <= |lines|
    requires forall k :: j <= k < u ==> !Foreign(lines[k])
    requires u < |lines| ==> Foreign(lines[u])
    requires forall k :: e <= k < u ==> Quiet(lines[k])
    requires e == j || !Quiet(lines[e - 1])
    ensures NodeEnd(lines, j) == e
  {
    hide Foreign, Quiet;
    ForeignIs(lines, j, u);
    assert WithoutQuiet(lines, j, u) == e;
  }

  lemma ForeignIs(lines: seq<string>, j: nat, u: nat)
    requires j <= u <= |lines|
    requires forall k :: j <= k < u ==> !Foreign(lines[k])
    requires u < |lines| ==> Foreign(lines[u])
    ensures FirstForeign(lines, j) == u
    decreases u - j
  {
    hide Foreign;
    if j < u { ForeignIs(lines, j + 1, u); }
  }

  /** The text with the node replaced by `block`, or with `block` at its end. */
  function Replaced(text: string, block: string): string {
    var lines := KeepLines(text);
    var start := Start(lines);
    if start == |lines| then
      var prefix := WithoutNewlines(text);
      (if prefix != "" then prefix + "\n\n" else "") + block
    else
      Flat(lines[..start]) + block + Flat(lines[NodeEnd(lines, start + 1)..])
  }

  /** _replace_block */
  method ReplaceBlock(text: string, block: string) returns (r: string)
    ensures r == Replaced(text, block)
  {
    hide KeepLines, Quiet, Foreign, IsStart, WithoutQuiet, FirstForeign;
    var lines := KeepLines(text);
    var start := Start(lines);
    if start == |lines| {
      var prefix := WithoutNewlines(text);
      return (if prefix != "" then prefix + "\n\n" else "") + block;
    }
    var end := |lines|;
    var j := start + 1;
    ghost var u := FirstForeign(lines, start + 1);
    ghost var e := WithoutQuiet(lines, start + 1, u);
    while j < |lines|
      invariant start + 1 <= j <= u && j <= e && end == |lines|
      decreases |lines| - j
    {
      if Quiet(lines[j]) {
        var k := j + 1;
        while k < |lines| && Quiet(lines[k])
          invariant j < k <= |lines| && forall i :: j <= i < k ==> Quiet(lines[i])
        {
          k := k + 1;
        }
        QuietIsNotForeign(lines, j, k);
        if k < |lines| && Indented(lines[k]) {
          IndentedIsNotForeign(lines[k]);
          assert k < u && k < e;
          j := k;
          continue;
        }
        end := j;
        assert u == k by { if k < |lines| { ForeignLine(lines[k]); } }
        break;
      }
      if Indented(lines[j]) {
        IndentedIsNotForeign(lines[j]);
        assert j < u && j < e;
        j := j + 1;
        continue;
      }
      end := j;
      ForeignLine(lines[j]);
      break;
    }
    assert end == e;
    r := Flat(lines[..start]) + block + Flat(lines[end..]);
  }

  lemma QuietIsNotForeign(lines: seq<string>, j: nat, k: nat)
    requires j <= k <= |lines| && forall i :: j <= i < k ==> Quiet(lines[i])
    ensures forall i :: j <= i < k ==> !Foreign(lines[i])
  {
  }

  lemma IndentedIsNotForeign(line: string)
    requires Indented(line)
    ensures !Foreign(line)
  {
  }

  lemma ForeignLine(line: string)
    requires !Quiet(line) && !Indented(line)
    ensures Foreign(line)
  {
  }

  // ---- The block ------------------------------------------------------------------------------------

  function HexDigit(n: nat): char
    requires n < 16
  {
    "0123456789abcdef"[n]
  }

  /** One character of json.dumps(..., ensure_ascii=False). */
  function JsonChar(c: char): string {
    if c == '"' then "\\\""
    else if c == '\\' then "\\\\"
    else if c == '\n' then "\\n"
    else if c == '\r' then "\\r"
    else if c == '\t' then "\\t"
    else if c == '\U{08}' then "\\b"
    else if c == '\U{0C}' then "\\f"
    else if c < ' ' then "\\u00" + [HexDigit(c as int / 16), HexDigit(c as int % 16)]
    else [c]
  }

  function JsonChars(s: string): string {
    if s == "" then "" else JsonChar(s[0]) + JsonChars(s[1..])
  }

  /** A proxy setting that passed validation: its URL has no whitespace. */
  datatype Proxy = Proxy(enabled: bool, url: string)

  predicate Checked(p: Proxy) {
    forall k :: 0 <= k < |p.url| ==> !IsBlank(p.url[k])
  }

  const FIRST := "buildProxy:"

  function EnabledLine(p: Proxy): string {
    "  enabled: " + if p.enabled then "true" else "false"
  }

  function UrlLine(p: Proxy): string {
    "  url: \"" + JsonChars(p.url) + "\""
  }

  /** render_block */
  function Block(p: Proxy): string {
    FIRST + "\n" + EnabledLine(p) + "\n" + UrlLine(p) + "\n"
  }

  function BlockLines(p: Proxy): seq<string> {
    [FIRST + "\n", EnabledLine(p) + "\n", UrlLine(p) + "\n"]
  }

  lemma JsonCharIsOneLine(c: char)
    requires !IsBreak(c)
    ensures OneLine(JsonChar(c))
  {
    forall n | 0 <= n < 16 ensures !IsBreak(HexDigit(n)) {
      assert HexDigit(n) >= '0';
    }
    assert OneLine("\\\"") && OneLine("\\\\") && OneLine("\\b") && OneLine("\\u00") && OneLine("\\t");
    if c < ' ' {
      var hex := [HexDigit(c as int / 16), HexDigit(c as int % 16)];
      OneLineAppends("\\u00", hex);
    }
  }

  lemma {:induction false} JsonIsOneLine(s: string)
    requires OneLine(s)
    ensures OneLine(JsonChars(s))
  {
    if s != "" {
      assert OneLine(s[1..]);
      JsonCharIsOneLine(s[0]);
      hide OneLine, JsonChar;
      JsonIsOneLine(s[1..]);
      OneLineAppends(JsonChar(s[0]), JsonChars(s[1..]));
    }
  }

  lemma UrlLineIsOneLine(p: Proxy)
    requires Checked(p)
    ensures OneLine(UrlLine(p))
  {
    assert OneLine(p.url) by {
      forall k | 0 <= k < |p.url| ensures !IsBreak(p.url[k]) {
        assert !IsBlank(p.url[k]);
      }
    }
    assert OneLine("  url: \"") && OneLine("\"");
    hide OneLine;
    JsonIsOneLine(p.url);
    OneLineAppends("  url: \"", JsonChars(p.url));
    OneLineAppends("  url: \"" + JsonChars(p.url), "\"");
  }

  lemma EnabledLineIsOneLine(p: Proxy)
    ensures OneLine(EnabledLine(p))
  {
    assert OneLine("  enabled: ") && OneLine("true") && OneLine("false");
    hide OneLine;
    OneLineAppends("  enabled: ", if p.enabled then "true" else "false");
  }

  lemma FirstIsOneLine()
    ensures OneLine(FIRST)
  {
  }

  lemma LineAlone(line: string, rest: string)
    requires OneLine(line)
    ensures KeepLines(line + "\n" + rest) == [line + "\n"] + KeepLines(rest)
  {
    var first := line + "\n";
    var s := first + rest;
    assert s[..|line|] == line && s[|line|] == '\n';
    LineLengthIs(s, |line|);
    Fold(first, rest);
  }

  lemma BlockIsItsLines(p: Proxy)
    requires Checked(p)
    ensures KeepLines(Block(p)) == BlockLines(p)
  {
    UrlLineIsOneLine(p);
    EnabledLineIsOneLine(p);
    FirstIsOneLine();
    hide OneLine, EnabledLine, UrlLine, FIRST, KeepLines;
    NoLines();
    var l3 := UrlLine(p) + "\n";
    var l2 := EnabledLine(p) + "\n" + l3;
    assert l3 == UrlLine(p) + "\n" + "";
    assert Block(p) == FIRST + "\n" + l2 by { ThreeJoin(FIRST + "\n", EnabledLine(p), UrlLine(p)); }
    LineAlone(UrlLine(p), "");
    LineAlone(EnabledLine(p), l3);
    LineAlone(FIRST, l2);
  }

  lemma ThreeJoin(a: string, b: string, c: string)
    ensures a + b + "\n" + c + "\n" == a + (b + "\n" + (c + "\n"))
  {
  }

  /** How the three lines of a block look to the replacement. */
  lemma BlockLinesAre(p: Proxy)
    ensures IsStart(BlockLines(p)[0])
    ensures !Quiet(BlockLines(p)[1]) && Indented(BlockLines(p)[1])
    ensures !Quiet(BlockLines(p)[2]) && Indented(BlockLines(p)[2])
  {
    assert IsBlank('\n');
    StartsIndented(BlockLines(p)[1], 'e');
    StartsIndented(BlockLines(p)[2], 'u');
    hide IsBlank, Quiet, Indented;
    assert BlockLines(p)[0][..11] == FIRST;
  }

  lemma StartsIndented(line: string, c: char)
    requires |line| > 3 && line[0] == ' ' && line[1] == ' ' && line[2] == c && c in "eu"
    ensures !Quiet(line) && Indented(line)
  {
    assert IsBlank(' ') && !IsBlank(c);
    hide IsBlank;
    assert Stripped(line) == Stripped(line[1..]) == Stripped(line[1..][1..]);
    StrippedStarts(line[1..][1..], c);
  }

  lemma {:induction false} StrippedStarts(s: string, c: char)
    requires s != "" && s[0] == c && !IsBlank(c)
    ensures Stripped(s) != "" && Stripped(s)[0] == c
    decreases |s|
  {
    if IsBlank(s[|s| - 1]) {
      StrippedStarts(s[..|s| - 1], c);
    }
  }

  // ---- Replacing again ---------------------------------------------------------------------------------

  predicate NoStart(lines: seq<string>) {
    forall k :: 0 <= k < |lines| ==> !IsStart(lines[k])
  }

  /** No line of `after` can belong to a node that stands before it. */
  predicate NodeOver(after: seq<string>) {
    NodeEnd(after, 0) == 0
  }

  lemma NodeOverAtEnd(lines: seq<string>, j: nat)
    requires j <= |lines|
    ensures NodeOver(lines[NodeEnd(lines, j)..])
  {
    hide Foreign, Quiet;
    var u, e := FirstForeign(lines, j), NodeEnd(lines, j);
    NodeEndIs(lines[e..], 0, 0, u - e);
  }

  lemma StartIs(lines: seq<string>, n: nat)
    requires n <= |lines| && (forall k :: 0 <= k < n ==> !IsStart(lines[k])) && (n < |lines| ==> IsStart(lines[n]))
    ensures Start(lines) == n
  {
    hide IsStart;
    if n > 0 { StartIs(lines[1..], n - 1); }
  }

  /** Three lines between others. */
  predicate Between(lines: seq<string>, before: seq<string>, b: seq<string>, after: seq<string>) {
    && |b| == 3 && |lines| == |before| + 3 + |after|
    && (forall k :: 0 <= k < |before| ==> lines[k] == before[k])
    && lines[|before|] == b[0] && lines[|before| + 1] == b[1] && lines[|before| + 2] == b[2]
    && (forall k :: |before| + 3 <= k < |lines| ==> lines[k] == after[k - |before| - 3])
  }

  lemma IsBetween(before: seq<string>, b: seq<string>, after: seq<string>)
    requires |b| == 3
    ensures Between(before + b + after, before, b, after)
  {
  }

  /** Where the node is in a text with a block in it. */
  lemma FindsBlock(before: seq<string>, p: Proxy, after: seq<string>)
    requires NoStart(before) && NodeOver(after)
    ensures var lines := before + BlockLines(p) + after;
            Start(lines) == |before| && NodeEnd(lines, |before| + 1) == |before| + 3
  {
    hide *;
    BlockLinesAre(p);
    ThreeLines(p);
    var lines := before + BlockLines(p) + after;
    IsBetween(before, BlockLines(p), after);
    StartAt(lines, before, BlockLines(p), after);
    EndAt(lines, before, BlockLines(p), after);
  }

  lemma StartAt(lines: seq<string>, before: seq<string>, b: seq<string>, after: seq<string>)
    requires Between(lines, before, b, after) && NoStart(before) && IsStart(b[0])
    ensures Start(lines) == |before|
  {
    hide IsStart;
    StartIs(lines, |before|);
  }

  lemma EndAt(lines: seq<string>, before: seq<string>, b: seq<string>, after: seq<string>)
    requires Between(lines, before, b, after) && NodeOver(after)
    requires Indented(b[1]) && Indented(b[2]) && !Quiet(b[2])
    ensures NodeEnd(lines, |before| + 1) == |before| + 3
  {
    hide Quiet, Foreign, Indented, NodeEnd, NodeOver, FirstForeign;
    NothingLeft(after);
    IndentedIsNotForeign(b[1]);
    IndentedIsNotForeign(b[2]);
    var n, u := |before|, FirstForeign(after, 0);
    forall k | n + 1 <= k < n + 3 + u ensures !Foreign(lines[k]) {
    }
    NodeEndIs(lines, n + 1, n + 3, n + 3 + u);
  }

  lemma NothingLeft(after: seq<string>)
    requires NodeOver(after)
    ensures forall k :: 0 <= k < FirstForeign(after, 0) ==> Quiet(after[k]) && !Foreign(after[k])
    ensures FirstForeign(after, 0) < |after| ==> Foreign(after[FirstForeign(after, 0)])
  {
    hide Quiet, Foreign;
  }

  /** A text made of lines, a block and lines, with its block replaced. */
  lemma ReplacesBlock(before: string, p: Proxy, after: string, block: string)
    requires before == "" || EndsLine(before, Block(p) + after)
    requires Checked(p) && NoStart(KeepLines(before)) && NodeOver(KeepLines(after))
    ensures Replaced(before + Block(p) + after, block) == before + block + after
  {
    var text := before + Block(p) + after;
    var b, a := KeepLines(before), KeepLines(after);
    BlockIsItsLines(p);
    BlockEndsLine(p, after);
    FindsBlock(b, p, a);
    hide *;
    Associative(before, Block(p), after);
    KeepAppends(before, Block(p) + after);
    KeepAppends(Block(p), after);
    Associative(b, BlockLines(p), a);
    FlatKeeps(before);
    FlatKeeps(after);
    ThreeLines(p);
    ReplacedPresent(text, block, b, BlockLines(p), a);
  }

  lemma ThreeLines(p: Proxy)
    ensures |BlockLines(p)| == 3
  {
  }

  lemma BlockEndsLine(p: Proxy, after: string)
    ensures EndsLine(Block(p), after)
  {
    var b := Block(p);
    assert b[|b| - 1] == '\n';
    assert IsBreak('\n');
    hide IsBreak, EnabledLine, UrlLine, FIRST;
  }

  lemma ReplacedPresent(text: string, block: string, b: seq<string>, m: seq<string>, a: seq<string>)
    requires KeepLines(text) == b + m + a && m != []
    requires Start(b + m + a) == |b| && NodeEnd(b + m + a, |b| + 1) == |b| + |m|
    ensures Replaced(text, block) == Flat(b) + block + Flat(a)
  {
    hide KeepLines, Start, NodeEnd, Flat;
    var lines := b + m + a;
    assert lines[..|b|] == b && lines[|b| + |m|..] == a;
  }

  lemma NewlineStarts(line: string)
    ensures IsStart(line) <==> IsStart(line + "\n")
    ensures !IsStart("\n")
  {
    assert IsBlank('\n') && FIRST[10] == ':';
    hide IsBlank;
    var longer := line + "\n";
    if |line| >= 11 {
      assert longer[..11] == line[..11];
    } else if |line| == 10 {
      assert longer[..11][10] == '\n';
    }
  }

  /** The first line of a text with a newline added. */
  lemma LongerFirstLine(s: string)
    requires s != ""
    ensures var m, m' := LineSize(s), LineSize(s + "\n");
            m' == m || (m == |s| && m' == m + 1)
  {
    var n, t := LineLength(s), s + "\n";
    assert t[..n] == s[..n] && IsBreak('\n');
    assert n < |s| ==> t[n] == s[n];
    assert t[|s|] == '\n';
    hide IsBreak;
    LineLengthIs(t, n);
  }

  /** A newline at the end neither makes nor breaks a first line of the node. */
  lemma {:induction false} NewlineKeepsStarts(s: string)
    ensures NoStart(KeepLines(s + "\n")) <==> NoStart(KeepLines(s))
    decreases |s|
  {
    hide *;
    NoLines();
    NewlineStarts(s);
    OneStart("\n", []);
    assert ["\n"] + [] == ["\n"];
    NewlineIsLine();
    NothingOver();
    if s == "" {
      assert s + "\n" == "\n";
    } else {
      var t, m := s + "\n", LineSize(s);
      Unfold(s);
      Unfold(t);
      LongerFirstLine(s);
      OneStart(s[..m], KeepLines(s[m..]));
      OneStart(t[..LineSize(t)], KeepLines(t[LineSize(t)..]));
      if m < |s| {
        assert t[..m] == s[..m] && t[m..] == s[m..] + "\n";
        NewlineKeepsStarts(s[m..]);
      } else if LineSize(t) == m {
        assert s[..m] == s && s[m..] == "" && t[..m] == s && t[m..] == "\n";
      } else {
        assert s[..m] == s && s[m..] == "" && t[..m + 1] == t && t[m + 1..] == "";
      }
    }
  }

  lemma NewlineIsLine()
    ensures KeepLines("\n") == ["\n"]
  {
    assert "" + "\n" + "" == "\n" && "" + "\n" == "\n";
    NoLines();
    hide KeepLines;
    LineAlone("", "");
    assert ["\n"] + [] == ["\n"];
  }

  lemma OneStart(first: string, rest: seq<string>)
    ensures NoStart([first] + rest) <==> !IsStart(first) && NoStart(rest)
  {
    hide IsStart;
    var all := [first] + rest;
    if NoStart(all) {
      assert forall k :: 0 <= k < |rest| ==> rest[k] == all[k + 1];
      assert all[0] == first;
    }
  }

  lemma {:induction false} TrailingNewlinesKeepStarts(s: string)
    ensures NoStart(KeepLines(WithoutNewlines(s))) <==> NoStart(KeepLines(s))
    ensures WithoutNewlines(WithoutNewlines(s)) == WithoutNewlines(s)
    decreases |s|
  {
    hide KeepLines, NoStart;
    if EndsWith(s, "\n") {
      var t := s[..|s| - 1];
      assert s == t + "\n";
      NewlineKeepsStarts(t);
      TrailingNewlinesKeepStarts(t);
    }
  }

  lemma TwoNewlines(s: string)
    ensures WithoutNewlines(s + "\n\n") == WithoutNewlines(s)
    ensures EndsLine(s + "\n\n", "b")
  {
    var a, b := s + "\n", s + "\n\n";
    assert b[..|b| - 1] == a && b[|b| - 1..] == "\n" && a[..|a| - 1] == s && a[|a| - 1..] == "\n";
    assert WithoutNewlines(b) == WithoutNewlines(a);
    assert IsBreak('\n');
    hide IsBreak;
  }

  /** What stands before the block when there was none. */
  lemma AbsentBefore(text: string, before: string)
    requires NoStart(KeepLines(text))
    requires var prefix := WithoutNewlines(text); before == if prefix != "" then prefix + "\n\n" else ""
    ensures NoStart(KeepLines(before)) && (before == "" || EndsLine(before, "b"))
    ensures WithoutNewlines(before) == WithoutNewlines(text)
  {
    hide KeepLines, NoStart, EndsLine;
    var prefix := WithoutNewlines(text);
    TrailingNewlinesKeepStarts(text);
    if prefix != "" {
      assert prefix + "\n\n" == prefix + "\n" + "\n";
      NewlineKeepsStarts(prefix);
      NewlineKeepsStarts(prefix + "\n");
      TwoNewlines(prefix);
    }
  }

  /** What a replacement gives: the text before the node, the block, and the text after. */
  lemma ReplacedIs(text: string, block: string) returns (before: string, node: string, after: string)
    ensures NoStart(KeepLines(before)) && NodeOver(KeepLines(after))
    ensures before == "" || EndsLine(before, "b")
    ensures forall other :: Replaced(text, other) == before + other + after
    ensures Start(KeepLines(text)) < |KeepLines(text)| ==>
              text == before + node + after && KeepLines(node) != [] && IsStart(KeepLines(node)[0])
    ensures Start(KeepLines(text)) == |KeepLines(text)| ==>
              node == "" && after == "" && WithoutNewlines(before) == WithoutNewlines(text)
  {
    hide KeepLines, IsStart, EndsLine, NodeEnd, Flat, NodeOver;
    var lines := KeepLines(text);
    if Start(lines) == |lines| {
      NoLines();
      NothingOver();
      node, after := "", "";
      var prefix := WithoutNewlines(text);
      before := if prefix != "" then prefix + "\n\n" else "";
      AbsentBefore(text, before);
      forall other ensures Replaced(text, other) == before + other + after {
        assert before + other + "" == before + other;
      }
    } else {
      var e := NodeEnd(lines, Start(lines) + 1);
      before, node, after := PresentParts(text, lines, Start(lines), e);
    }
  }

  lemma PresentParts(text: string, lines: seq<string>, start: nat, e: nat)
    returns (before: string, node: string, after: string)
    requires lines == KeepLines(text) && start == Start(lines) < |lines| && e == NodeEnd(lines, start + 1)
    ensures before == Flat(lines[..start]) && after == Flat(lines[e..]) && text == before + node + after
    ensures NoStart(KeepLines(before)) && NodeOver(KeepLines(after))
    ensures before == "" || EndsLine(before, "b")
    ensures KeepLines(node) != [] && IsStart(KeepLines(node)[0])
  {
    hide *;
    NodeOverAtEnd(lines, start + 1);
    StartsNode(lines, start, e);
    CutInThree(lines, start, e);
    before, node, after := Flat(lines[..start]), Flat(lines[start..e]), Flat(lines[e..]);
    ThreeParts(text, lines[..start], lines[start..e], lines[e..]);
  }

  lemma CutInThree(lines: seq<string>, i: nat, j: nat)
    requires i <= j <= |lines|
    ensures lines == lines[..i] + lines[i..j] + lines[j..]
  {
  }

  lemma StartsNode(lines: seq<string>, start: nat, e: nat)
    requires start == Start(lines) < e <= |lines|
    ensures NoStart(lines[..start]) && lines[start..e] != [] && IsStart(lines[start..e][0])
  {
    hide IsStart;
  }

  lemma ThreeParts(text: string, b: seq<string>, m: seq<string>, a: seq<string>)
    requires KeepLines(text) == b + m + a && m != []
    ensures text == Flat(b) + Flat(m) + Flat(a)
    ensures KeepLines(Flat(b)) == b && KeepLines(Flat(m)) == m && KeepLines(Flat(a)) == a
    ensures Flat(b) == "" || EndsLine(Flat(b), "b")
  {
    hide *;
    Associative(b, m, a);
    LinesSplit(text, b, m + a);
    LinesSplit(Flat(m + a), m, a);
    Associative(Flat(b), Flat(m), Flat(a));
    NothingFlat();
    if b != [] { EndsAnyLine(Flat(b), Flat(m + a)); }
  }

  lemma EndsAnyLine(before: string, rest: string)
    requires EndsLine(before, rest)
    ensures EndsLine(before, "b")
  {
  }

  lemma NothingOver()
    ensures NodeOver([]) && NoStart([])
  {
  }

  /** The last replacement counts: replacing twice is replacing once with the second block,
      whether or not the text had the section. */
  lemma LastWriteWins(text: string, p1: Proxy, p2: Proxy)
    requires Checked(p1)
    ensures Replaced(Replaced(text, Block(p1)), Block(p2)) == Replaced(text, Block(p2))
  {
    hide *;
    var before, node, after := ReplacedIs(text, Block(p1));
    BeforeBlock(before, p1, after);
    ReplacesBlock(before, p1, after, Block(p2));
  }

  lemma BeforeBlock(before: string, p: Proxy, after: string)
    requires before == "" || EndsLine(before, "b")
    ensures before == "" || EndsLine(before, Block(p) + after)
  {
    assert FIRST[0] == 'b';
    hide IsBreak, EnabledLine, UrlLine, FIRST;
    assert (Block(p) + after)[0] == 'b';
  }

  // ---- The section, line by line ---------------------------------------------------------------------------

  /** The key alone on its line, or followed by white space. */
  predicate Header(line: string) {
    line == "buildProxy:" || (|line| > 11 && line[..11] == "buildProxy:" && IsBlank(line[11]))
  }

  /** White space up to the end or up to a '#'. */
  predicate Aside(line: string) {
    exists k :: 0 <= k <= |line| && AsideAt(line, k)
  }

  predicate AsideAt(line: string, k: nat)
    requires k <= |line|
  {
    (forall j :: 0 <= j < k ==> IsBlank(line[j])) && (k == |line| || line[k] == '#')
  }

  predicate Inner(line: string) {
    line != "" && (line[0] == ' ' || line[0] == '\t')
  }

  lemma {:induction false} AsideIs(line: string)
    ensures Quiet(line) <==> Aside(line)
  {
    assert !IsBlank('#');
    hide IsBlank;
    if line == "" {
      assert AsideAt(line, 0);
    } else if IsBlank(line[0]) {
      AsideIs(line[1..]);
      if k :| 0 <= k <= |line| && AsideAt(line, k) { assert AsideAt(line[1..], k - 1); }
      if k :| 0 <= k <= |line[1..]| && AsideAt(line[1..], k) { assert AsideAt(line, k + 1); }
    } else {
      StrippedStarts(line, line[0]);
      if line[0] == '#' { assert AsideAt(line, 0); }
    }
  }

  lemma LineKinds(line: string)
    ensures IsStart(line) <==> Header(line)
    ensures Quiet(line) <==> Aside(line)
    ensures Foreign(line) <==> !Aside(line) && !Inner(line)
  {
    AsideIs(line);
    hide IsBlank, Quiet, Aside;
  }

  /** The section is the first line with the key and what follows it, up to the last indented line
      of content before the first line that is neither indented nor blank nor a comment.  It is
      replaced; everything else stays. */
  lemma SectionIsReplaced(text: string, n: nat, e: nat, u: nat, block: string)
    requires var lines := KeepLines(text);
             && n < e <= u <= |lines| && (forall k :: 0 <= k < n ==> !Header(lines[k])) && Header(lines[n])
             && (forall k :: n + 1 <= k < e ==> Inner(lines[k]) || Aside(lines[k]))
             && (e == n + 1 || !Aside(lines[e - 1]))
             && (forall k :: e <= k < u ==> Aside(lines[k]))
             && (u < |lines| ==> !Inner(lines[u]) && !Aside(lines[u]))
    ensures var lines := KeepLines(text);
            && text == Flat(lines[..n]) + Flat(lines[n..e]) + Flat(lines[e..])
            && Replaced(text, block) == Flat(lines[..n]) + block + Flat(lines[e..])
  {
    hide *;
    var lines := KeepLines(text);
    SectionIsFound(lines, n, e, u);
    FoundIsReplaced(text, block, n, e);
    FlatKeeps(text);
    assert lines == lines[..n] + lines[n..e] + lines[e..];
    FlatAppends(lines[..n] + lines[n..e], lines[e..]);
    FlatAppends(lines[..n], lines[n..e]);
  }

  lemma SectionIsFound(lines: seq<string>, n: nat, e: nat, u: nat)
    requires n < e <= u <= |lines| && (forall k :: 0 <= k < n ==> !Header(lines[k])) && Header(lines[n])
    requires forall k :: n + 1 <= k < e ==> Inner(lines[k]) || Aside(lines[k])
    requires e == n + 1 || !Aside(lines[e - 1])
    requires forall k :: e <= k < u ==> Aside(lines[k])
    requires u < |lines| ==> !Inner(lines[u]) && !Aside(lines[u])
    ensures Start(lines) == n && NodeEnd(lines, n + 1) == e
  {
    hide *;
    forall line ensures (IsStart(line) <==> Header(line)) && (Quiet(line) <==> Aside(line))
                        && (Foreign(line) <==> !Aside(line) && !Inner(line)) {
      LineKinds(line);
    }
    StartIs(lines, n);
    NodeEndIs(lines, n + 1, e, u);
  }

  lemma FoundIsReplaced(text: string, block: string, n: nat, e: nat)
    requires var lines := KeepLines(text); n < e <= |lines| && Start(lines) == n && NodeEnd(lines, n + 1) == e
    ensures Replaced(text, block) == Flat(KeepLines(text)[..n]) + block + Flat(KeepLines(text)[e..])
  {
    hide KeepLines, Flat, Start, NodeEnd;
  }

  /** Without such a line the block comes at the end, after an empty line. */
  lemma SectionIsAdded(text: string, block: string)
    requires forall k :: 0 <= k < |KeepLines(text)| ==> !Header(KeepLines(text)[k])
    ensures Replaced(text, block) == if WithoutNewlines(text) == "" then block else WithoutNewlines(text) + "\n\n" + block
  {
    hide Header, IsStart, KeepLines;
    forall line ensures IsStart(line) <==> Header(line) {
      LineKinds(line);
    }
    StartIs(KeepLines(text), |KeepLines(text)|);
    assert "" + block == block;
  }

  // ---- Reading the block -----------------------------------------------------------------------------------

  function HexValue(c: char): Option<nat> {
    if '0' <= c <= '9' then Some((c - '0') as nat) else if 'a' <= c <= 'f' then Some((c - 'a') as nat + 10) else None
  }

  /** A JSON string after its opening quote (section 7 of RFC 8259): its characters, and what
      follows the closing quote. */
  function ReadString(t: string): Option<(string, string)> {
    if t == "" || t[0] < ' ' then None
    else if t[0] == '"' then Some(("", t[1..]))
    else if t[0] != '\\' then Then(t[0], ReadString(t[1..]))
    else if |t| == 1 then None
    else
      match t[1]
      case '"' => Then('"', ReadString(t[2..]))
      case '\\' => Then('\\', ReadString(t[2..]))
      case '/' => Then('/', ReadString(t[2..]))
      case 'b' => Then('\U{08}', ReadString(t[2..]))
      case 'f' => Then('\U{0C}', ReadString(t[2..]))
      case 'n' => Then('\n', ReadString(t[2..]))
      case 'r' => Then('\r', ReadString(t[2..]))
      case 't' => Then('\t', ReadString(t[2..]))
      case 'u' =>
        // The escapes up to U+00FF are enough here.
        if |t| < 6 || t[2] != '0' || t[3] != '0' || HexValue(t[4]).None? || HexValue(t[5]).None? then None
        else Then((16 * HexValue(t[4]).value + HexValue(t[5]).value) as char, ReadString(t[6..]))
      case _ => None
  }

  function Then(c: char, rest: Option<(string, string)>): Option<(string, string)> {
    match rest
    case None => None
    case Some((s, after)) => Some(([c] + s, after))
  }

  lemma ReadsChar(c: char, t: string)
    ensures ReadString(JsonChar(c) + t) == Then(c, ReadString(t))
  {
    var u := JsonChar(c) + t;
    assert u[|JsonChar(c)|..] == t;
    if c < ' ' && c !in "\n\r\t" && c != '\U{08}' && c != '\U{0C}' {
      ReadsControl(c, t);
    }
  }

  lemma ReadsControl(c: char, t: string)
    requires c < ' ' && c !in "\n\r\t" && c != '\U{08}' && c != '\U{0C}'
    ensures ReadString(JsonChar(c) + t) == Then(c, ReadString(t))
  {
    var n := c as int;
    assert n % 16 < 16 && n / 16 < 2;
    HexReads(n / 16);
    HexReads(n % 16);
    var u := "\\u00" + [HexDigit(n / 16), HexDigit(n % 16)] + t;
    assert u == JsonChar(c) + t && u[6..] == t;
  }

  /** The characters with an escape of two letters, and those that stand for themselves. */
  lemma EscapesAre(c: char)
    ensures JsonChar('\n') == "\\n" && JsonChar('\r') == "\\r" && JsonChar('\t') == "\\t"
    ensures JsonChar('\U{08}') == "\\b" && JsonChar('\U{0C}') == "\\f"
    ensures JsonChar(c) == [c] <==> c >= ' ' && c != '"' && c != '\\'
  {
  }

  lemma HexReads(n: nat)
    requires n < 16
    ensures HexValue(HexDigit(n)) == Some(n)
  {
  }

  lemma {:induction false} StringReadsBack(s: string, rest: string)
    ensures ReadString(JsonChars(s) + "\"" + rest) == Some((s, rest))
  {
    hide JsonChar;
    if s == "" {
      assert "" + "\"" + rest == "\"" + rest;
      assert ("\"" + rest)[1..] == rest;
    } else {
      StringReadsBack(s[1..], rest);
      assert JsonChars(s) + "\"" + rest == JsonChar(s[0]) + (JsonChars(s[1..]) + "\"" + rest);
      ReadsChar(s[0], JsonChars(s[1..]) + "\"" + rest);
      assert s == [s[0]] + s[1..];
    }
  }

  /** What is rendered says whether the proxy is enabled, and its URL, whatever characters it has. */
  lemma BlockReadsBack(p: Proxy)
    ensures var head := "buildProxy:\n  enabled: " + (if p.enabled then "true" else "false") + "\n  url: \"";
            head <= Block(p) && ReadString(Block(p)[|head|..]) == Some((p.url, "\n"))
  {
    var head := "buildProxy:\n  enabled: " + (if p.enabled then "true" else "false") + "\n  url: \"";
    StringReadsBack(p.url, "\n");
    hide ReadString, JsonChars;
    assert Block(p) == head + (JsonChars(p.url) + "\"" + "\n");
  }

  // ---- The file ------------------------------------------------------------------------------------------

  function WithEnd(text: string): string {
    if EndsWith(text, "\n") then text else text + "\n"
  }

  /** The file after write_build_proxy has saved `p`. */
  function Saved(file: Option<string>, p: Proxy): string {
    if file.None? then Block(p) else WithEnd(Replaced(file.value, Block(p)))
  }

  class ConfigFile {
    var file: Option<string>

    constructor (file: Option<string>)
      ensures this.file == file
    {
      this.file := file;
    }

    /** write_build_proxy, under its lock; `valid` is the answer of validating a whole text,
        `readable` and `writable` whether the file can be read and replaced. */
    method Write(p: Proxy, valid: string -> bool, readable: bool, writable: bool) returns (done: bool)
      modifies this
      ensures file == if done then Some(Saved(old(file), p)) else old(file)
      ensures done <==> (old(file).Some? ==> readable) && valid(Saved(old(file), p)) && writable
    {
      hide Replaced, Block;
      var updated := Block(p);
      if file.Some? {
        if !readable { return false; }
        updated := ReplaceBlock(file.value, Block(p));
        if !EndsWith(updated, "\n") {
          updated := updated + "\n";
        }
      }
      if !valid(updated) || !writable { return false; }
      file := Some(updated);
      done := true;
    }
  }

  /** Over: only quiet lines up to the first line that cannot belong to the node. */
  predicate Over(lines: seq<string>) {
    lines != [] ==> Foreign(lines[0]) || (Quiet(lines[0]) && Over(lines[1..]))
  }

  lemma {:induction false} OverIs(lines: seq<string>)
    ensures Over(lines) <==> NodeOver(lines)
  {
    hide Quiet, Foreign;
    if lines != [] && !Foreign(lines[0]) {
      var rest := lines[1..];
      OverIs(rest);
      var u := FirstForeign(rest, 0);
      ForeignIs(lines, 0, u + 1);
      if Quiet(lines[0]) && Over(rest) {
        NodeEndIs(lines, 0, 0, u + 1);
      }
      if NodeOver(lines) {
        assert Quiet(lines[0]);
        assert forall k :: 0 <= k < u ==> Quiet(rest[k]) by {
          assert forall k :: 0 <= k < u ==> rest[k] == lines[k + 1];
        }
        NodeEndIs(rest, 0, 0, u);
      }
    }
  }

  lemma {:induction false} StrippedNewline(s: string)
    ensures Stripped(s + "\n") == Stripped(s)
  {
    var t := s + "\n";
    assert IsBlank('\n');
    assert t[..|s|] == s;
    hide IsBlank;
    if s == "" {
      assert t[1..] == "";
    } else if IsBlank(s[0]) {
      assert t[1..] == s[1..] + "\n";
      StrippedNewline(s[1..]);
    }
  }

  lemma NewlineKind(line: string)
    requires line != ""
    ensures Quiet(line + "\n") <==> Quiet(line)
    ensures Foreign(line + "\n") <==> Foreign(line)
    ensures Quiet("\n")
  {
    StrippedNewline(line);
    StrippedNewline("");
    assert "" + "\n" == "\n";
    hide Stripped;
    NothingStripped();
  }

  lemma NothingStripped()
    ensures Stripped("") == ""
  {
  }

  lemma OneOver(first: string, rest: seq<string>)
    ensures Over([first] + rest) <==> Foreign(first) || (Quiet(first) && Over(rest))
  {
    hide Quiet, Foreign;
    assert ([first] + rest)[1..] == rest;
  }

  lemma NothingIsOver()
    ensures Over([])
  {
  }

  /** A newline added to the end does not bring the node back. */
  lemma {:induction false} NewlineKeepsOver(s: string)
    requires Over(KeepLines(s))
    ensures Over(KeepLines(s + "\n"))
    decreases |s|
  {
    hide *;
    NoLines();
    NewlineIsLine();
    NothingIsOver();
    NewlineKind("x");
    OneOver("\n", []);
    assert ["\n"] + [] == ["\n"];
    if s == "" {
      assert s + "\n" == "\n";
    } else {
      var t, m := s + "\n", LineSize(s);
      Unfold(s);
      Unfold(t);
      LongerFirstLine(s);
      NewlineKind(s[..m]);
      OneOver(s[..m], KeepLines(s[m..]));
      OneOver(t[..LineSize(t)], KeepLines(t[LineSize(t)..]));
      if m < |s| {
        assert t[..m] == s[..m] && t[m..] == s[m..] + "\n";
        if Over(KeepLines(s[m..])) { NewlineKeepsOver(s[m..]); }
      } else if LineSize(t) == m {
        assert s[..m] == s && t[..m] == s && t[m..] == "\n";
      } else {
        assert s[..m] == s && t[..m + 1] == t && t[m + 1..] == "";
      }
    }
  }

  /** Of two saves one after the other the second counts: the file is as if the first had
      never been. */
  lemma LastSaveWins(file: Option<string>, p1: Proxy, p2: Proxy)
    requires Checked(p1)
    ensures Saved(Some(Saved(file, p1)), p2) == Saved(file, p2)
  {
    hide *;
    var before, node, after := "", "", "";
    SavedIs(file, p1);
    SavedIs(file, p2);
    SavedIs(Some(Saved(file, p1)), p2);
    if file.Some? {
      before, node, after := ReplacedIs(file.value, Block(p1));
    } else {
      NothingOver();
      NoLines();
      assert before + Block(p1) + after == Block(p1) && before + Block(p2) + after == Block(p2);
    }
    BeforeBlock(before, p1, after);
    EndsOfBlocks(before, p1, after);
    EndsOfBlocks(before, p2, after);
    if after == "" || EndsWith(after, "\n") {
      ReplacesBlock(before, p1, after, Block(p2));
    } else {
      var longer := after + "\n";
      OverIs(KeepLines(after));
      NewlineKeepsOver(after);
      OverIs(KeepLines(longer));
      BeforeBlock(before, p1, longer);
      ReplacesBlock(before, p1, longer, Block(p2));
      Associative(before + Block(p1), after, "\n");
      Associative(before + Block(p2), after, "\n");
      EndsOfBlocks(before, p2, longer);
      LongerEnds(after);
    }
  }

  lemma LongerEnds(s: string)
    ensures s + "\n" != "" && EndsWith(s + "\n", "\n")
  {
    assert (s + "\n")[|s|..] == "\n";
  }

  lemma SavedIs(file: Option<string>, p: Proxy)
    ensures Saved(file, p)
            == if file.None? then Block(p)
               else var r := Replaced(file.value, Block(p)); if EndsWith(r, "\n") then r else r + "\n"
  {
  }

  /** A text with a block ends as what follows the block, or as the block. */
  lemma EndsOfBlocks(before: string, p: Proxy, after: string)
    ensures EndsWith(before + Block(p) + after, "\n") <==> after == "" || EndsWith(after, "\n")
  {
    var b := Block(p);
    assert b[|b| - 1] == '\n';
    hide Block;
    var t := before + b + after;
    assert t[|t| - 1..] == [t[|t| - 1]];
    if after != "" {
      assert t[|t| - 1] == after[|after| - 1] && after[|after| - 1..] == [after[|after| - 1]];
    }
  }
}
