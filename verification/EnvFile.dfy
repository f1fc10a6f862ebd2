/**
The environment files of a container: how an assignment is read, how an old .env is taken
apart, how its business keys move to .env.local, and how a missing JWT_SECRET is filled in.

Compose reads .env and then .env.local, so an assignment in .env.local wins.
*/
module EnvFile {
  import opened Wrappers
  import opened Text
  import opened Urls

  // ---- Reading assignments -------------------------------------------------------------------

  predicate IsLetter(c: char) {
    'a' <= c <= 'z' || 'A' <= c <= 'Z' || c == '_'
  }

  predicate IsWordChar(c: char) {
    IsLetter(c) || '0' <= c <= '9'
  }

  function WordLength(s: string): (n: nat)
    ensures n <= |s| && (forall k :: 0 <= k < n ==> IsWordChar(s[k])) && (n < |s| ==> !IsWordChar(s[n]))
  {
    if s == "" || !IsWordChar(s[0]) then 0 else 1 + WordLength(s[1..])
  }

  /** [A-Za-z_][A-Za-z0-9_]* and nothing else. */
  predicate IsName(s: string) {
    s != "" && IsLetter(s[0]) && forall k :: 0 <= k < |s| ==> IsWordChar(s[k])
  }

  /** Said with the letters and digits listed. */
  lemma NameIs(s: string)
    ensures IsName(s) <==>
              && s != "" && s[0] !in "0123456789"
              && forall k :: 0 <= k < |s| ==>
                   s[k] in "ABCDEFGHIJKLMNOPQRSTUVWXYZ" || s[k] in "abcdefghijklmnopqrstuvwxyz" || s[k] in "0123456789_"
  {
    hide *;
    forall c ensures IsWordChar(c) <==>
                       c in "ABCDEFGHIJKLMNOPQRSTUVWXYZ" || c in "abcdefghijklmnopqrstuvwxyz" || c in "0123456789_" {
      WordCharIs(c);
    }
    forall c ensures IsLetter(c) <==> IsWordChar(c) && c !in "0123456789" {
      WordCharIs(c);
    }
    NameHas(s);
  }

  lemma NameHas(s: string)
    ensures IsName(s) <==> s != "" && IsLetter(s[0]) && forall k :: 0 <= k < |s| ==> IsWordChar(s[k])
  {
  }

  lemma WordCharIs(c: char)
    ensures IsWordChar(c) <==>
              c in "ABCDEFGHIJKLMNOPQRSTUVWXYZ" || c in "abcdefghijklmnopqrstuvwxyz" || c in "0123456789_"
    ensures IsLetter(c) <==> IsWordChar(c) && c !in "0123456789"
  {
    Capital(c);
    Small(c);
    Digit(c);
    assert c in "0123456789_" <==> c in "0123456789" || c == '_';
    hide *;
    WordCharHas(c);
  }

  lemma WordCharHas(c: char)
    ensures IsLetter(c) <==> 'a' <= c <= 'z' || 'A' <= c <= 'Z' || c == '_'
    ensures IsWordChar(c) <==> IsLetter(c) || '0' <= c <= '9'
  {
  }

  lemma Capital(c: char)
    ensures 'A' <= c <= 'Z' <==> c in "ABCDEFGHIJKLMNOPQRSTUVWXYZ"
  {
  }

  lemma Small(c: char)
    ensures 'a' <= c <= 'z' <==> c in "abcdefghijklmnopqrstuvwxyz"
  {
  }

  lemma Digit(c: char)
    ensures '0' <= c <= '9' <==> c in "0123456789"
  {
  }

  /** str.lstrip() */
  function SkipBlanks(s: string): (r: string)
    ensures r == "" || !IsBlank(r[0])
  {
    if s != "" && IsBlank(s[0]) then SkipBlanks(s[1..]) else s
  }

  /** NAME\s*= at the front: the name and what follows the sign. */
  function NameEquals(s: string): Option<(string, string)> {
    var n := WordLength(s);
    if n == 0 || !IsLetter(s[0]) then None else
    var rest := SkipBlanks(s[n..]);
    if rest != "" && rest[0] == '=' then Some((s[..n], rest[1..])) else None
  }

  /** ^\s*(?:export\s+)?NAME\s*= : the name a line assigns, and the text assigned. */
  function Assigned(line: string): Option<(string, string)> {
    var s := SkipBlanks(line);
    var exported := if StartsWith(s, "export") && |s| > 6 && IsBlank(s[6]) then NameEquals(SkipBlanks(s[6..])) else None;
    if exported.Some? then exported else NameEquals(s)
  }

  predicate Assigns(line: string, key: string) {
    Assigned(line).Some? && Assigned(line).value.0 == key
  }

  /** What the last of the lines that assign `key` assigns. */
  function Last(lines: seq<string>, key: string): Option<string> {
    if lines == [] then None
    else if Assigns(lines[|lines| - 1], key) then Some(Assigned(lines[|lines| - 1]).value.1)
    else Last(lines[..|lines| - 1], key)
  }

  function ValueIn(text: string, key: string): Option<string> {
    Last(Pieces(text), key)
  }

  function TextOf(file: Option<string>): string {
    if file.Some? then file.value else ""
  }

  datatype Files = Files(env: Option<string>, local: Option<string>)

  /** The value the application is started with. */
  function Effective(f: Files, key: string): Option<string> {
    var own := ValueIn(TextOf(f.local), key);
    if own.Some? then own else ValueIn(TextOf(f.env), key)
  }

  /** The keys the pattern finds in a file. */
  function Keys(text: string): set<string> {
    var lines := Pieces(text);
    set k | 0 <= k < |lines| && Assigned(lines[k]).Some? :: Assigned(lines[k]).value.0
  }

  lemma {:induction false} LastAppends(a: seq<string>, b: seq<string>, key: string)
    ensures Last(a + b, key) == if Last(b, key).Some? then Last(b, key) else Last(a, key)
    decreases |b|
  {
    if b == [] {
      assert a + b == a;
    } else {
      assert (a + b)[..|a + b| - 1] == a + b[..|b| - 1];
      hide Assigned;
      LastAppends(a, b[..|b| - 1], key);
    }
  }

  lemma {:induction false} LastIsAssigned(lines: seq<string>, key: string)
    ensures Last(lines, key).Some? <==> exists k :: 0 <= k < |lines| && Assigns(lines[k], key)
  {
    hide Assigned;
    if lines != [] {
      var n := |lines| - 1;
      LastIsAssigned(lines[..n], key);
      assert forall k :: 0 <= k < n ==> lines[..n][k] == lines[k];
      if k :| 0 <= k < |lines| && Assigns(lines[k], key) {
        assert k < n ==> Assigns(lines[..n][k], key);
      }
    }
  }

  lemma KeysAreAssigned(text: string, key: string)
    ensures key in Keys(text) <==> ValueIn(text, key).Some?
  {
    hide Assigned, Last, Pieces;
    LastIsAssigned(Pieces(text), key);
    var lines := Pieces(text);
    if k :| 0 <= k < |lines| && Assigns(lines[k], key) {
      assert Assigned(lines[k]).value.0 in Keys(text);
    }
  }

  lemma OneLast(line: string, key: string)
    ensures Last([line], key) == if Assigns(line, key) then Some(Assigned(line).value.1) else None
  {
    hide Assigned;
    assert [line][..0] == [];
  }

  // ---- Taking an old .env apart ------------------------------------------------------------------

  const MANAGED_KEYS := {"HOST_PORT", "INTERNAL_PORT", "MEMORY_LIMIT", "CPU_LIMIT", "DATABASE_URL"}

  datatype Kind = Skipped | Unreadable | ManagedUrl(value: string) | Managed | Business(key: string)

  /** One raw line; `sqlite` says that DATABASE_URL is managed, `extra` are the build keys. */
  function Classified(raw: string, sqlite: bool, extra: set<string>): Kind {
    var line := Stripped(raw);
    if line == "" || line[0] == '#' then Skipped else
    var body := if StartsWith(line, "export ") then Stripped(line[7..]) else line;
    var n := Find(body, "=");
    var key := Stripped(body[..n]);
    if n == |body| || !IsName(key) then Unreadable
    else if key == "DATABASE_URL" && sqlite then ManagedUrl(body[n + 1..])
    else if key !in MANAGED_KEYS + extra || key == "DATABASE_URL" then Business(key)
    else Managed
  }

  datatype OldEnv = OldEnv(url: Option<string>, business: seq<(string, string)>, unreadable: seq<nat>)

  const NOTHING := OldEnv(None, [], [])

  function Noted(e: OldEnv, raw: string, number: nat, sqlite: bool, extra: set<string>): OldEnv {
    match Classified(raw, sqlite, extra)
    case ManagedUrl(value) => e.(url := Some(value))
    case Business(key) => e.(business := e.business + [(key, raw)])
    case Unreadable => e.(unreadable := e.unreadable + [number])
    case _ => e
  }

  function Parsed(lines: seq<string>, sqlite: bool, extra: set<string>): OldEnv {
    if lines == [] then NOTHING
    else Noted(Parsed(lines[..|lines| - 1], sqlite, extra), lines[|lines| - 1], |lines|, sqlite, extra)
  }

  /** The lines that cannot be read are numbered from one. */
  lemma {:induction false} UnreadableIff(lines: seq<string>, sqlite: bool, extra: set<string>, n: nat)
    ensures n in Parsed(lines, sqlite, extra).unreadable
       <==> 1 <= n <= |lines| && Classified(lines[n - 1], sqlite, extra).Unreadable?
  {
    hide Classified;
    if lines != [] {
      UnreadableIff(lines[..|lines| - 1], sqlite, extra, n);
    }
  }

  /** What an old .env, if there is one, holds. */
  function OldEnvOf(env: Option<string>, sqlite: bool, extra: set<string>): OldEnv {
    if env.None? then NOTHING else Parsed(SplitLines(env.value), sqlite, extra)
  }

  /** _parse_existing_env */
  method ParseExisting(env: Option<string>, sqlite: bool, extra: set<string>) returns (e: OldEnv)
    ensures e == OldEnvOf(env, sqlite, extra)
  {
    hide Classified, SplitLines;
    e := NOTHING;
    if env.None? { return; }
    var lines := SplitLines(env.value);
    for i := 0 to |lines|
      invariant e == Parsed(lines[..i], sqlite, extra)
    {
      assert lines[..i + 1][..i] == lines[..i];
      match Classified(lines[i], sqlite, extra)
      case ManagedUrl(value) => e := e.(url := Some(value));
      case Business(key) => e := e.(business := e.business + [(key, lines[i])]);
      case Unreadable => e := e.(unreadable := e.unreadable + [i + 1]);
      case _ =>
    }
    assert lines[..|lines|] == lines;
  }

  // ---- The two readings agree ----------------------------------------------------------------------

  predicate AllBlank(s: string) {
    forall k :: 0 <= k < |s| ==> IsBlank(s[k])
  }

  lemma {:induction false} SkipAll(b: string, rest: string)
    requires AllBlank(b)
    ensures SkipBlanks(b + rest) == SkipBlanks(rest)
    decreases |b|
  {
    if b == "" {
      assert b + rest == rest;
    } else {
      assert (b + rest)[1..] == b[1..] + rest;
      hide IsBlank;
      SkipAll(b[1..], rest);
    }
  }

  /** What strip takes from the end. */
  lemma {:induction false} SkipIsStripped(s: string) returns (b: string)
    ensures AllBlank(b) && SkipBlanks(s) == Stripped(s) + b
    decreases |s|
  {
    hide IsBlank;
    if s == "" {
      b := "";
    } else if IsBlank(s[0]) {
      b := SkipIsStripped(s[1..]);
    } else if IsBlank(s[|s| - 1]) {
      var n := |s| - 1;
      var c := SkipIsStripped(s[..n]);
      assert SkipBlanks(s[..n]) == s[..n] && SkipBlanks(s) == s == s[..n] + [s[n]];
      b := c + [s[n]];
    } else {
      b := "";
      assert Stripped(s) + b == s;
    }
  }

  lemma {:induction false} WordLengthIs(s: string, n: nat)
    requires n <= |s| && (forall k :: 0 <= k < n ==> IsWordChar(s[k])) && (n < |s| ==> !IsWordChar(s[n]))
    ensures WordLength(s) == n
    decreases n
  {
    hide IsWordChar;
    if n > 0 {
      WordLengthIs(s[1..], n - 1);
    }
  }

  lemma BlankEndsWord(c: char)
    requires IsBlank(c) || c == '='
    ensures !IsWordChar(c)
  {
  }

  /** A name, blanks and '=' are read as the pattern reads them. */
  lemma NameIsRead(key: string, b: string, rest: string)
    requires IsName(key) && AllBlank(b)
    ensures NameEquals(key + (b + ("=" + rest))) == Some((key, rest))
    ensures SkipBlanks(b + ("=" + rest)) == "=" + rest
  {
    var tail := b + ("=" + rest);
    var s := key + tail;
    assert !IsBlank('=');
    BlankEndsWord(tail[0]);
    SkipAll(b, "=" + rest);
    assert SkipBlanks("=" + rest) == "=" + rest;
    hide IsBlank, IsWordChar;
    WordLengthIs(s, |key|);
    assert s[|key|..] == tail && s[..|key|] == key;
    assert ("=" + rest)[1..] == rest;
  }

  lemma BodyIsRead(body: string, b: string, n: nat) returns (gap: string)
    requires body != "" && !IsBlank(body[0]) && n < |body| && body[n] == '=' && IsName(Stripped(body[..n]))
    ensures AllBlank(gap) && body + b == Stripped(body[..n]) + (gap + ("=" + (body[n + 1..] + b)))
  {
    gap := SkipIsStripped(body[..n]);
    NoName();
    hide Stripped, IsBlank, IsName;
    assert body[..n][0] == body[0];
    assert SkipBlanks(body[..n]) == body[..n];
    Regrouped(Stripped(body[..n]), gap, body[n + 1..], b);
    assert body == body[..n] + "=" + body[n + 1..];
  }

  lemma NoName()
    ensures !IsName(Stripped(""[..0])) && !IsName(Stripped(""))
  {
  }

  lemma Regrouped(key: string, gap: string, value: string, b: string)
    ensures key + gap + "=" + value + b == key + (gap + ("=" + (value + b)))
  {
  }

  /** `s` reads as an assignment of `key` when it is its name, blanks and '=', after an
      optional "export". */
  lemma PlainAssignment(line: string, key: string, gap: string, rest: string)
    requires IsName(key) && AllBlank(gap)
    requires SkipBlanks(line) == key + (gap + ("=" + rest))
    ensures Assigned(line) == Some((key, rest))
  {
    var s := key + (gap + ("=" + rest));
    NameIsRead(key, gap, rest);
    if StartsWith(s, "export") && |s| > 6 && IsBlank(s[6]) {
      ExportIsTheName(key, gap, rest);
    }
  }

  /** A line that starts with "export" and a blank, where "export" is the name assigned. */
  lemma ExportIsTheName(key: string, gap: string, rest: string)
    requires IsName(key) && AllBlank(gap)
    requires var s := key + (gap + ("=" + rest)); StartsWith(s, "export") && |s| > 6 && IsBlank(s[6])
    ensures var s := key + (gap + ("=" + rest)); NameEquals(SkipBlanks(s[6..])).None?
  {
    var s := key + (gap + ("=" + rest));
    BlankEndsWord(s[6]);
    assert forall k :: 0 <= k < |key| ==> s[k] == key[k] && IsWordChar(s[k]);
    assert |key| <= 6;
    BlankEndsWord(s[|key|]);
    LettersOfExport(s);
    assert |key| == 6;
    assert s[6..] == gap + ("=" + rest);
    NameIsRead(key, gap, rest);
    BlankEndsWord('=');
    hide SkipBlanks, IsWordChar;
    WordLengthIs("=" + rest, 0);
  }

  lemma LettersOfExport(s: string)
    requires StartsWith(s, "export")
    ensures forall k :: 0 <= k < 6 ==> IsWordChar(s[k])
  {
    assert forall k :: 0 <= k < 6 ==> s[k] == s[..6][k] == "export"[k];
  }

  lemma ExportedAssignment(line: string, key: string, gap: string, rest: string)
    requires IsName(key) && AllBlank(gap)
    requires var s := SkipBlanks(line);
             && StartsWith(s, "export") && |s| > 6 && IsBlank(s[6])
             && SkipBlanks(s[6..]) == key + (gap + ("=" + rest))
    ensures Assigned(line) == Some((key, rest))
  {
    NameIsRead(key, gap, rest);
  }

  /** A line the parser calls a business line is one the pattern finds the same key in. */
  lemma ParserAgrees(raw: string, sqlite: bool, extra: set<string>)
    requires Classified(raw, sqlite, extra).Business?
    ensures Assigns(raw, Classified(raw, sqlite, extra).key)
  {
    hide Stripped, IsName, Assigned, WrittenAs;
    var key := ReadIsWritten(raw, sqlite, extra);
    var value :| WrittenAs(raw, key, value);
    WrittenIsFiled(raw, key, value, sqlite, extra);
    WrittenIsAssigned(raw, key, value);
  }

  lemma {:induction false} StrippedEnds(s: string)
    ensures var t := Stripped(s); t == "" || (!IsBlank(t[0]) && !IsBlank(t[|t| - 1]))
    decreases |s|
  {
    hide IsBlank;
    if s != "" {
      if IsBlank(s[0]) { StrippedEnds(s[1..]); }
      else if IsBlank(s[|s| - 1]) { StrippedEnds(s[..|s| - 1]); }
    }
  }

  /** What follows "export " in a stripped line with blanks after it. */
  lemma ExportedRest(line: string, b: string)
    requires StartsWith(line, "export ") && !IsBlank(line[|line| - 1]) && AllBlank(b)
    ensures StartsWith(line + b, "export ") && SkipBlanks((line + b)[7..]) == Stripped(line[7..]) + b
  {
    var rest := line[7..];
    assert line[..7] == "export " && (line + b)[..7] == line[..7];
    assert (line + b)[7..] == rest + b;
    assert line[6] == line[..7][6] == ' ' && IsBlank(' ');
    assert rest[|rest| - 1] == line[|line| - 1];
    hide IsBlank;
    SkipKeepsTail(rest, b);
  }

  lemma {:induction false} SkipKeepsTail(s: string, b: string)
    requires s != "" && !IsBlank(s[|s| - 1])
    ensures SkipBlanks(s + b) == Stripped(s) + b
    decreases |s|
  {
    hide IsBlank;
    if IsBlank(s[0]) {
      assert (s + b)[1..] == s[1..] + b;
      SkipKeepsTail(s[1..], b);
    }
  }

  // ---- Assignments, written out ---------------------------------------------------------------------

  /** The line is blanks, perhaps "export " and blanks, the key, blanks, '=' and the value. */
  predicate Written(line: string, key: string, value: string, a: string, exported: bool, c: string, b: string) {
    && AllBlank(a) && AllBlank(b) && AllBlank(c)
    && line == a + (if exported then "export " + c else "") + key + b + "=" + value
    // "export =" is an export of nothing.
    && (!exported && key == "export" ==> !(b != "" && b[0] == ' '))
  }

  ghost predicate WrittenAs(line: string, key: string, value: string) {
    exists a, exported, c, b :: Written(line, key, value, a, exported, c, b)
  }

  lemma {:induction false} StrippedSkips(a: string, s: string)
    requires AllBlank(a)
    ensures Stripped(a + s) == Stripped(s)
    decreases |a|
  {
    if a == "" {
      assert a + s == s;
    } else {
      assert (a + s)[1..] == a[1..] + s;
      hide IsBlank;
      StrippedSkips(a[1..], s);
    }
  }

  lemma {:induction false} BlanksTrimmed(b: string)
    requires AllBlank(b)
    ensures Trimmed(b) == ""
    decreases |b|
  {
    if b != "" { BlanksTrimmed(b[..|b| - 1]); }
  }

  lemma NameHasNoBlank(key: string)
    requires IsName(key)
    ensures !IsBlank(key[0]) && !IsBlank(key[|key| - 1]) && '=' !in key && ' ' !in key && key[0] != '#'
  {
    assert IsWordChar(key[|key| - 1]);
    forall c | IsWordChar(c) ensures !IsBlank(c) && c !in "= #" {
    }
  }

  lemma TrimmedTwice(s: string)
    ensures !EndsBlank(Trimmed(s)) && Trimmed(Trimmed(s)) == Trimmed(s)
  {
  }

  /** Key, blanks, '=', value: cut at that sign. */
  lemma SignIsFound(key: string, b: string, value: string)
    requires IsName(key) && AllBlank(b)
    ensures var body, n := key + b + "=" + value, |key| + |b|;
            Find(body, "=") == n && body[..n] == key + b && body[n + 1..] == value
  {
    var body := key + b + "=" + value;
    NameHasNoBlank(key);
    assert !IsBlank('=');
    hide IsName, IsBlank;
    forall k | 0 <= k < |key| + |b| ensures body[k] != '=' {
      if k < |key| { assert body[k] == key[k]; } else { assert body[k] == b[k - |key|]; }
    }
    FindIs(body, "=", |key| + |b|);
  }

  lemma KeyIsStripped(key: string, b: string)
    requires IsName(key) && AllBlank(b)
    ensures Stripped(key + b) == key
  {
    NameHasNoBlank(key);
    BlanksTrimmed(b);
    hide *;
    StrippedAfter(key, b);
  }

  lemma AssignmentStripped(key: string, b: string, value: string)
    requires IsName(key)
    ensures Stripped(key + b + "=" + value) == key + b + "=" + Trimmed(value)
  {
    var p := key + b + "=";
    NameHasNoBlank(key);
    assert p[0] == key[0] && p[|p| - 1] == '=' && !IsBlank('=');
    hide *;
    StrippedAfter(p, value);
  }

  /** How the parser files a line that assigns a key, by the key alone. */
  function Filed(key: string, value: string, sqlite: bool, extra: set<string>): Kind {
    if key == "DATABASE_URL" then if sqlite then ManagedUrl(value) else Business(key)
    else if key in {"HOST_PORT", "INTERNAL_PORT", "MEMORY_LIMIT", "CPU_LIMIT"} || key in extra then Managed
    else Business(key)
  }

  /** The parser reads every such line, and files it under its key: DATABASE_URL is managed for a
      SQLite instance and the four settings and the build keys always are; everything else is a
      business key. */
  lemma WrittenIsFiled(raw: string, key: string, value: string, sqlite: bool, extra: set<string>)
    requires IsName(key) && WrittenAs(raw, key, value)
    ensures Classified(raw, sqlite, extra) == Filed(key, Trimmed(value), sqlite, extra)
  {
    hide AllBlank, IsName, Classified, Filed, Trimmed;
    var a, exported, c, b :| Written(raw, key, value, a, exported, c, b);
    if exported {
      assert raw == a + ("export " + c + (key + b + "=" + value));
      ExportIsFiled(raw, a, c, key, b, value, sqlite, extra);
    } else {
      assert raw == a + (key + b + "=" + value);
      PlainIsFiled(raw, a, key, b, value, sqlite, extra);
    }
  }

  lemma PlainIsFiled(raw: string, a: string, key: string, b: string, value: string, sqlite: bool, extra: set<string>)
    requires IsName(key) && AllBlank(a) && AllBlank(b) && raw == a + (key + b + "=" + value)
    requires !(key == "export" && b != "" && b[0] == ' ')
    ensures Classified(raw, sqlite, extra) == Filed(key, Trimmed(value), sqlite, extra)
  {
    NameHasNoBlank(key);
    hide *;
    var body := key + b + "=" + Trimmed(value);
    StrippedSkips(a, key + b + "=" + value);
    AssignmentStripped(key, b, value);
    NotAnExport(key, b, Trimmed(value));
    SignIsFound(key, b, Trimmed(value));
    KeyIsStripped(key, b);
    assert body[0] == key[0];
    FiledByKey(raw, body, body, key, |key| + |b|, sqlite, extra);
  }

  lemma ExportIsFiled(raw: string, a: string, c: string, key: string, b: string, value: string,
                      sqlite: bool, extra: set<string>)
    requires IsName(key) && AllBlank(a) && AllBlank(b) && AllBlank(c)
    requires raw == a + ("export " + c + (key + b + "=" + value))
    ensures Classified(raw, sqlite, extra) == Filed(key, Trimmed(value), sqlite, extra)
  {
    hide *;
    var body := key + b + "=" + Trimmed(value);
    StrippedSkips(a, "export " + c + (key + b + "=" + value));
    ExportStripped(c, key + b + "=", value);
    assert "export " + c + (key + b + "=" + value) == "export " + c + (key + b + "=") + value;
    ExportedBody(c, body);
    var line := "export " + c + body;
    assert "export " + c + (key + b + "=") + Trimmed(value) == line;
    StrippedSkips(c, body);
    AssignmentStripped(key, b, value);
    AssignmentStripped(key, b, Trimmed(value));
    TrimmedTwice(value);
    SignIsFound(key, b, Trimmed(value));
    KeyIsStripped(key, b);
    FiledByKey(raw, line, body, key, |key| + |b|, sqlite, extra);
  }

  lemma ExportedBody(c: string, body: string)
    ensures var line := "export " + c + body;
            StartsWith(line, "export ") && line[7..] == c + body && line[0] == 'e'
  {
  }

  lemma ExportStripped(c: string, p: string, value: string)
    requires p != "" && p[|p| - 1] == '='
    ensures Stripped("export " + c + p + value) == "export " + c + p + Trimmed(value)
  {
    var q := "export " + c + p;
    assert q[0] == 'e' && q[|q| - 1] == '=' && !IsBlank('e') && !IsBlank('=');
    hide *;
    StrippedAfter(q, value);
  }

  lemma FiledByKey(raw: string, line: string, body: string, key: string, n: nat, sqlite: bool, extra: set<string>)
    requires Stripped(raw) == line && line != "" && line[0] != '#' && IsName(key)
    requires body == if StartsWith(line, "export ") then Stripped(line[7..]) else line
    requires n < |body| && Find(body, "=") == n && Stripped(body[..n]) == key
    ensures Classified(raw, sqlite, extra) == Filed(key, body[n + 1..], sqlite, extra)
  {
    hide Stripped, IsName, Find, StartsWith;
  }

  lemma NotAnExport(key: string, b: string, value: string)
    requires IsName(key) && AllBlank(b) && !(key == "export" && b != "" && b[0] == ' ')
    ensures !StartsWith(key + b + "=" + value, "export ")
  {
    var line := key + b + "=" + value;
    NameHasNoBlank(key);
    if StartsWith(line, "export ") {
      LettersOfExport(line);
      ExportIsKey(line, key, b, value);
    }
  }

  lemma ExportIsKey(line: string, key: string, b: string, value: string)
    requires IsName(key) && AllBlank(b) && line == key + b + "=" + value && StartsWith(line, "export ")
    ensures key == "export" && b != "" && b[0] == ' '
  {
    LettersOfExport(line);
    assert line[6] == line[..7][6] == ' ' && !IsWordChar(' ');
    assert forall k :: 0 <= k < |key| ==> line[k] == key[k] && IsWordChar(line[k]);
    BlankEndsWord(line[|key|]);
    assert key == line[..6] == line[..7][..6];
  }

  /** The line is blanks, perhaps "export" and at least one blank, the key, blanks, '=' and the
      value. */
  predicate Loose(line: string, key: string, value: string, a: string, exported: bool, c: string, b: string) {
    && AllBlank(a) && AllBlank(b) && AllBlank(c) && (exported ==> c != "")
    && line == a + (if exported then "export" + c else "") + key + b + "=" + value
  }

  lemma NameEqualsParts(s: string) returns (b: string)
    requires NameEquals(s).Some?
    ensures var (key, value) := NameEquals(s).value; IsName(key) && AllBlank(b) && s == key + b + "=" + value
  {
    var n := WordLength(s);
    b := LeadingBlanks(s[n..]);
    hide IsBlank, SkipBlanks;
    assert s == s[..n] + s[n..];
  }

  lemma AssignedIsLoose(line: string) returns (a: string, exported: bool, c: string, b: string)
    requires Assigned(line).Some?
    ensures var (key, value) := Assigned(line).value; IsName(key) && Loose(line, key, value, a, exported, c, b)
  {
    hide *;
    a := LeadingBlanks(line);
    var s := SkipBlanks(line);
    exported := ExportsName(s);
    AssignedCases(line);
    if exported {
      c, b := ExportParts(s);
      ExportIsLoose(line, a, s, c, b);
    } else {
      c := "";
      b := NameEqualsParts(s);
      PlainIsLoose(line, a, s, b);
    }
  }

  predicate ExportsName(s: string) {
    StartsWith(s, "export") && |s| > 6 && IsBlank(s[6]) && NameEquals(SkipBlanks(s[6..])).Some?
  }

  lemma AssignedCases(line: string)
    ensures var s := SkipBlanks(line);
            if ExportsName(s) then |s| > 6 && Assigned(line) == NameEquals(SkipBlanks(s[6..])) else Assigned(line) == NameEquals(s)
  {
    hide SkipBlanks, NameEquals, IsBlank;
  }

  lemma ExportIsLoose(line: string, a: string, s: string, c: string, b: string)
    requires ExportsName(s) && AllBlank(a) && AllBlank(b) && AllBlank(c) && c != "" && line == a + s
    requires var (key, value) := NameEquals(SkipBlanks(s[6..])).value; s == "export" + c + key + b + "=" + value
    ensures var (key, value) := NameEquals(SkipBlanks(s[6..])).value; Loose(line, key, value, a, true, c, b)
  {
    hide SkipBlanks, NameEquals, IsBlank, AllBlank;
  }

  lemma PlainIsLoose(line: string, a: string, s: string, b: string)
    requires NameEquals(s).Some? && AllBlank(a) && AllBlank(b) && line == a + s
    requires var (key, value) := NameEquals(s).value; s == key + b + "=" + value
    ensures var (key, value) := NameEquals(s).value; Loose(line, key, value, a, false, "", b)
  {
    hide NameEquals, IsBlank;
    var (key, value) := NameEquals(s).value;
    assert a + (key + b + "=" + value) == a + "" + key + b + "=" + value;
  }

  lemma ExportParts(s: string) returns (c: string, b: string)
    requires ExportsName(s)
    ensures var (key, value) := NameEquals(SkipBlanks(s[6..])).value;
            && IsName(key) && AllBlank(b) && AllBlank(c) && c != ""
            && s == "export" + c + key + b + "=" + value
  {
    hide *;
    ExportShape(s);
    var rest := s[6..];
    var t := SkipBlanks(rest);
    c := LeadingBlanks(rest);
    b := NameEqualsParts(t);
    var (key, value) := NameEquals(t).value;
    assert "" + t == t;
    ExportRegrouped(s, rest, c, t, key, b, value);
  }

  lemma ExportShape(s: string)
    requires ExportsName(s)
    ensures |s| > 6 && s == "export" + s[6..] && SkipBlanks(s[6..]) != s[6..] && NameEquals(SkipBlanks(s[6..])).Some?
  {
    hide NameEquals, IsBlank;
    assert s[6..][0] == s[6];
    assert s == s[..6] + s[6..];
  }

  lemma ExportRegrouped(s: string, rest: string, c: string, t: string, key: string, b: string, value: string)
    requires s == "export" + rest && rest == c + t && t == key + b + "=" + value
    ensures s == "export" + c + key + b + "=" + value
  {
  }

  lemma LooseIsAssigned(line: string, key: string, value: string, a: string, exported: bool, c: string, b: string)
    requires IsName(key) && Loose(line, key, value, a, exported, c, b)
    ensures Assigned(line) == Some((key, value))
  {
    NameHasNoBlank(key);
    var tail := key + (b + ("=" + value));
    hide IsName, IsBlank, Assigned;
    SkipAll(c, tail);
    assert SkipBlanks(tail) == tail;
    if exported {
      var s := "export" + (c + tail);
      assert line == a + s;
      SkipAll(a, s);
      ExportStarts(c + tail);
      assert s[6] == c[0];
      ExportedAssignment(line, key, b, value);
    } else {
      assert line == a + tail;
      SkipAll(a, tail);
      PlainAssignment(line, key, b, value);
    }
  }

  lemma ExportStarts(rest: string)
    ensures var s := "export" + rest; SkipBlanks(s) == s && StartsWith(s, "export") && s[6..] == rest
  {
    var s := "export" + rest;
    assert s[0] == 'e' && !IsBlank('e');
  }

  /** The pattern finds a key exactly in the lines of that form. */
  lemma AssignedIff(line: string, key: string, value: string)
    ensures Assigned(line) == Some((key, value))
       <==> IsName(key) && exists a, exported, c, b :: Loose(line, key, value, a, exported, c, b)
  {
    hide Assigned, IsName, Loose;
    if Assigned(line) == Some((key, value)) {
      var a, exported, c, b := AssignedIsLoose(line);
    }
    if a, exported, c, b :| IsName(key) && Loose(line, key, value, a, exported, c, b) {
      LooseIsAssigned(line, key, value, a, exported, c, b);
    }
  }

  /** And the pattern finds the same key in what the parser reads, with the value as it stands. */
  lemma WrittenIsAssigned(raw: string, key: string, value: string)
    requires IsName(key) && WrittenAs(raw, key, value)
    ensures Assigned(raw) == Some((key, value))
  {
    var a, exported, c, b :| Written(raw, key, value, a, exported, c, b);
    assert IsBlank(' ');
    hide IsName, IsBlank, Assigned;
    assert "export" + (" " + c) == "export " + c;
    LooseIsAssigned(raw, key, value, a, exported, " " + c, b);
  }

  /** Whatever the value is. */
  ghost predicate Plainly(line: string, key: string) {
    exists value :: WrittenAs(line, key, value)
  }

  lemma {:induction false} LeadingBlanks(s: string) returns (a: string)
    ensures AllBlank(a) && s == a + SkipBlanks(s)
  {
    hide IsBlank;
    a := "";
    if s != "" && IsBlank(s[0]) {
      var rest := LeadingBlanks(s[1..]);
      a := [s[0]] + rest;
    }
  }

  lemma AssignedIsName(line: string, key: string)
    requires Assigns(line, key)
    ensures IsName(key)
  {
    hide IsBlank, SkipBlanks;
  }

  /** What is skipped assigns nothing. */
  lemma SkippedAssignsNothing(raw: string, key: string)
    requires Stripped(raw) == "" || Stripped(raw)[0] == '#'
    ensures !Assigns(raw, key)
  {
    var a := LeadingBlanks(raw);
    var s := SkipBlanks(raw);
    var b := SkipIsStripped(raw);
    if s == "" {
      assert Assigned(raw).None?;
    } else {
      assert !IsBlank(s[0]);
      assert s[0] == (Stripped(raw) + b)[0];
      HashAssignsNothing(s, key);
      assert SkipBlanks(s) == s;
      hide SkipBlanks, IsBlank, Stripped;
    }
  }

  /** A line that the parser neither skips nor refuses is a plain or an exported assignment. */
  lemma ReadIsWritten(raw: string, sqlite: bool, extra: set<string>) returns (key: string)
    requires var k := Classified(raw, sqlite, extra); !k.Skipped? && !k.Unreadable?
    ensures IsName(key) && Plainly(raw, key)
  {
    var line := Stripped(raw);
    var b := SkipIsStripped(raw);
    StrippedEnds(raw);
    var exported := StartsWith(line, "export ");
    var body := if exported then Stripped(line[7..]) else line;
    var n := Find(body, "=");
    key := Stripped(body[..n]);
    assert n < |body| && body[n] == '=' && IsName(key);
    if exported {
      StrippedEnds(line[7..]);
    }
    hide *;
    var a := LeadingBlanks(raw);
    var gap := BodyIsRead(body, b, n);
    var value := body[n + 1..] + b;
    assert raw == a + (line + b);
    if exported {
      ExportedRest(line, b);
      var c := LeadingBlanks((line + b)[7..]);
      ExportIsWritten(raw, a, line + b, c, key, gap, value);
    } else {
      PlainIsWritten(raw, a, line, b, key, gap, value);
    }
  }

  lemma ExportIsWritten(raw: string, a: string, s: string, c: string, key: string, gap: string, value: string)
    requires AllBlank(a) && AllBlank(c) && AllBlank(gap)
    requires raw == a + s && StartsWith(s, "export ") && s[7..] == c + (key + (gap + ("=" + value)))
    ensures Plainly(raw, key)
  {
    hide AllBlank;
    assert s == "export " + (c + (key + (gap + ("=" + value))));
    assert Written(raw, key, value, a, true, c, gap);
    assert WrittenAs(raw, key, value);
  }

  lemma PlainIsWritten(raw: string, a: string, line: string, b: string, key: string, gap: string, value: string)
    requires AllBlank(a) && AllBlank(gap) && AllBlank(b) && !StartsWith(line, "export ")
    requires raw == a + (line + b) && line + b == key + (gap + ("=" + value))
    requires '=' in line
    ensures Plainly(raw, key)
  {
    assert !IsBlank('=');
    assert AllBlank("");
    hide IsBlank;
    if key == "export" && gap != "" && gap[0] == ' ' {
      BareExport(line, b, gap, value);
    }
    assert Written(raw, key, value, a, false, "", gap);
    assert WrittenAs(raw, key, value);
  }

  lemma BareExport(line: string, b: string, gap: string, value: string)
    requires line + b == "export" + (gap + ("=" + value)) && AllBlank(gap) && gap != "" && gap[0] == ' ' && '=' in line
    ensures StartsWith(line, "export ")
  {
    assert !IsBlank('=');
    hide IsBlank;
    var k :| 0 <= k < |line| && line[k] == '=';
    assert (line + b)[k] == '=' && |line| >= 7;
    assert line[..7] == (line + b)[..7] == "export ";
  }

  /** Of the lines the pattern finds a key in, the parser refuses exactly those that are neither
      plain nor exported with "export " (a tab after export, say). */
  lemma RefusedIff(raw: string, key: string, sqlite: bool, extra: set<string>)
    requires Assigns(raw, key)
    ensures Classified(raw, sqlite, extra).Unreadable? <==> !Plainly(raw, key)
  {
    AssignedIsName(raw, key);
    hide Stripped, IsName, Assigned;
    if Plainly(raw, key) {
      var value :| WrittenAs(raw, key, value);
      WrittenIsFiled(raw, key, value, sqlite, extra);
    } else if !Classified(raw, sqlite, extra).Unreadable? {
      if Classified(raw, sqlite, extra).Skipped? {
        SkippedAssignsNothing(raw, key);
      } else {
        var other := ReadIsWritten(raw, sqlite, extra);
        var value :| WrittenAs(raw, other, value);
        WrittenIsAssigned(raw, other, value);
      }
    }
  }

  // ---- Moving business keys to .env.local ----------------------------------------------------------

  /** The lines to append: of each key that is not taken, the first. */
  function Appended(business: seq<(string, string)>, taken: set<string>): seq<string> {
    if business == [] then []
    else if business[0].0 in taken then Appended(business[1..], taken)
    else [business[0].1] + Appended(business[1..], taken + {business[0].0})
  }

  function WithNewline(text: string): string {
    if text != "" && !EndsWith(text, "\n") then text + "\n" else text
  }

  const MOVED := "# 以下键由 lwa 从 .env 迁移（issue #11）。"

  /** .env.local after _migrate_business_keys_to_env_local. */
  function Migrated(local: Option<string>, business: seq<(string, string)>): Option<string> {
    var text := TextOf(local);
    var add := Appended(business, Keys(text));
    if add == [] then local
    else Some(WithNewline(text) + MOVED + "\n" + JoinedLines(add) + "\n")
  }

  /** What the first line of `key` assigns. */
  function FirstValue(business: seq<(string, string)>, key: string): Option<string> {
    if business == [] then None
    else if business[0].0 == key && Assigned(business[0].1).Some? then Some(Assigned(business[0].1).value.1)
    else FirstValue(business[1..], key)
  }

  /** Every line assigns the key it is filed under and is one line. */
  predicate WellFiled(business: seq<(string, string)>) {
    forall k :: 0 <= k < |business| ==> Assigns(business[k].1, business[k].0) && '\n' !in business[k].1
  }

  lemma {:induction false} ParsedIsWellFiled(lines: seq<string>, sqlite: bool, extra: set<string>)
    requires forall k :: 0 <= k < |lines| ==> '\n' !in lines[k]
    ensures WellFiled(Parsed(lines, sqlite, extra).business)
  {
    hide Classified, Assigns;
    if lines != [] {
      var n := |lines| - 1;
      ParsedIsWellFiled(lines[..n], sqlite, extra);
      if Classified(lines[n], sqlite, extra).Business? {
        ParserAgrees(lines[n], sqlite, extra);
      }
    }
  }

  lemma OldEnvIsWellFiled(env: Option<string>, sqlite: bool, extra: set<string>)
    ensures WellFiled(OldEnvOf(env, sqlite, extra).business)
  {
    hide Parsed, Assigns;
    if env.Some? {
      var lines := SplitLines(env.value);
      forall k | 0 <= k < |lines| ensures '\n' !in lines[k] {
        SplitGivesLines(env.value, lines[k]);
        assert OneLine(lines[k]) && IsBreak('\n');
      }
      ParsedIsWellFiled(lines, sqlite, extra);
    }
  }

  lemma {:induction false} AppendedValue(business: seq<(string, string)>, taken: set<string>, key: string)
    requires WellFiled(business)
    ensures Last(Appended(business, taken), key) == if key in taken then None else FirstValue(business, key)
    ensures forall k :: 0 <= k < |Appended(business, taken)| ==> '\n' !in Appended(business, taken)[k]
    decreases |business|
  {
    hide Assigned;
    if business != [] {
      var (k, raw) := business[0];
      assert Assigns(raw, k);
      if k in taken {
        AppendedValue(business[1..], taken, key);
      } else {
        var rest := Appended(business[1..], taken + {k});
        AppendedValue(business[1..], taken + {k}, key);
        LastAppends([raw], rest, key);
        OneLast(raw, key);
      }
    }
  }

  lemma HashAssignsNothing(line: string, key: string)
    requires line != "" && line[0] == '#'
    ensures !Assigns(line, key)
  {
    assert !IsBlank('#') && !IsWordChar('#');
    hide IsBlank, IsWordChar;
    assert SkipBlanks(line) == line;
    WordLengthIs(line, 0);
    assert !StartsWith(line, "export") by { assert |line| >= 6 ==> line[..6][0] == '#'; }
  }

  lemma EmptyAssignsNothing(key: string)
    ensures ValueIn("", key).None? && Last([""], key).None?
  {
    OnePiece("");
    assert !Assigns("", key);
    hide Assigned, Pieces;
    OneLast("", key);
  }

  /** Appending after a newline: what is appended wins. */
  lemma ValueAppended(text: string, x: string, key: string)
    ensures ValueIn(WithNewline(text) + x, key) == if ValueIn(x, key).Some? then ValueIn(x, key) else ValueIn(text, key)
  {
    hide Assigned, Pieces, Last;
    EmptyAssignsNothing(key);
    if text == "" {
      assert WithNewline(text) + x == x;
    } else if EndsWith(text, "\n") {
      var t := text[..|text| - 1];
      assert text == t + "\n" == t + "\n" + "";
      PiecesJoin(t, "");
      PiecesJoin(t, x);
      OnePiece("");
      LastAppends(Pieces(t), [""], key);
      LastAppends(Pieces(t), Pieces(x), key);
    } else {
      PiecesJoin(text, x);
      LastAppends(Pieces(text), Pieces(x), key);
    }
  }

  /** A comment, lines, and a final newline assign what the lines assign. */
  lemma BlockValue(comment: string, lines: seq<string>, key: string)
    requires comment != "" && comment[0] == '#' && '\n' !in comment
    requires lines != [] && forall k :: 0 <= k < |lines| ==> '\n' !in lines[k]
    ensures ValueIn(comment + "\n" + (JoinedLines(lines) + "\n"), key) == Last(lines, key)
  {
    hide Assigned, Pieces, Last, JoinedLines;
    var j := JoinedLines(lines);
    assert j + "\n" == j + "\n" + "";
    PiecesJoin(comment, j + "\n");
    PiecesJoin(j, "");
    OnePiece(comment);
    OnePiece("");
    JoinedPieces(lines);
    EmptyAssignsNothing(key);
    HashAssignsNothing(comment, key);
    OneLast(comment, key);
    LastAppends(lines, [""], key);
    LastAppends([comment], lines + [""], key);
  }

  lemma MovedIsComment()
    ensures MOVED != "" && MOVED[0] == '#' && '\n' !in MOVED
  {
  }

  /** After the migration a key has its old local value, or else its first business value. */
  lemma MigratedValue(local: Option<string>, business: seq<(string, string)>, key: string)
    requires WellFiled(business)
    ensures ValueIn(TextOf(Migrated(local, business)), key)
            == if key in Keys(TextOf(local)) then ValueIn(TextOf(local), key) else FirstValue(business, key)
  {
    hide *;
    var text := TextOf(local);
    var taken := Keys(text);
    var add := Appended(business, taken);
    KeysAreAssigned(text, key);
    AppendedValue(business, taken, key);
    MigratedText(local, business);
    if add == [] {
      NothingLast(key);
    } else {
      var x := MOVED + "\n" + (JoinedLines(add) + "\n");
      MovedIsComment();
      BlockValue(MOVED, add, key);
      ValueAppended(text, x, key);
    }
  }

  lemma NothingLast(key: string)
    ensures Last([], key).None?
  {
  }

  lemma MigratedText(local: Option<string>, business: seq<(string, string)>)
    ensures var text := TextOf(local);
            var add := Appended(business, Keys(text));
            if add == [] then Migrated(local, business) == local
            else TextOf(Migrated(local, business)) == WithNewline(text) + (MOVED + "\n" + (JoinedLines(add) + "\n"))
  {
    hide Keys, Appended, WithNewline, JoinedLines;
  }

  // ---- Filling in a secret --------------------------------------------------------------------------

  const SECRET := "JWT_SECRET"

  const GENERATED := "# 由 lwa 自动生成（BUG-199）；" + "可按 .env.example 补充其它密钥。"

  /** What follows "JWT_SECRET=" on the first line that starts with it. */
  function ExampleSecret(lines: seq<string>): Option<string> {
    if lines == [] then None
    else if StartsWith(lines[0], SECRET + "=") then Some(lines[0][|SECRET| + 1..])
    else ExampleSecret(lines[1..])
  }

  /** The example asks for a secret and gives none. */
  predicate WantsSecret(example: Option<string>) {
    && example.Some?
    && ExampleSecret(Pieces(example.value)).Some?
    && Stripped(ExampleSecret(Pieces(example.value)).value) == ""
  }

  /** The first line that starts with "JWT_SECRET=" has only blanks after it. */
  predicate BlankSecretAt(lines: seq<string>, i: int) {
    && 0 <= i < |lines| && StartsWith(lines[i], "JWT_SECRET=") && AllBlank(lines[i][11..])
    && forall j :: 0 <= j < i ==> !StartsWith(lines[j], "JWT_SECRET=")
  }

  ghost predicate AsksForSecret(example: Option<string>) {
    example.Some? && exists i :: BlankSecretAt(Pieces(example.value), i)
  }

  lemma {:induction false} StripsToNothingIff(s: string)
    ensures Stripped(s) == "" <==> AllBlank(s)
    decreases |s|
  {
    hide IsBlank;
    if s != "" {
      if IsBlank(s[0]) {
        StripsToNothingIff(s[1..]);
        assert s == [s[0]] + s[1..];
      } else if IsBlank(s[|s| - 1]) {
        StripsToNothingIff(s[..|s| - 1]);
        assert s[..|s| - 1][0] == s[0];
      }
    }
  }

  lemma {:induction false} ExampleSecretIs(lines: seq<string>)
    ensures (ExampleSecret(lines).Some? && Stripped(ExampleSecret(lines).value) == "") <==> exists i :: BlankSecretAt(lines, i)
  {
    hide Stripped, AllBlank;
    if lines != [] {
      assert SECRET + "=" == "JWT_SECRET=" && |SECRET| + 1 == 11;
      if StartsWith(lines[0], "JWT_SECRET=") {
        StripsToNothingIff(lines[0][11..]);
        if AllBlank(lines[0][11..]) {
          assert BlankSecretAt(lines, 0);
        }
      } else {
        ExampleSecretIs(lines[1..]);
        LaterBlankSecret(lines);
      }
    }
  }

  lemma LaterBlankSecret(lines: seq<string>)
    requires lines != [] && !StartsWith(lines[0], "JWT_SECRET=")
    ensures (exists i :: BlankSecretAt(lines, i)) <==> exists i :: BlankSecretAt(lines[1..], i)
  {
    if i :| BlankSecretAt(lines, i) {
      assert i > 0;
      assert BlankSecretAt(lines[1..], i - 1);
    }
    if i :| BlankSecretAt(lines[1..], i) {
      assert BlankSecretAt(lines, i + 1);
    }
  }

  /** A secret is filled in when the first line of the example that assigns one leaves it blank. */
  lemma WantsSecretIff(example: Option<string>)
    ensures WantsSecret(example) <==> AsksForSecret(example)
  {
    hide ExampleSecret, Pieces, Stripped, BlankSecretAt;
    if example.Some? { ExampleSecretIs(Pieces(example.value)); }
  }

  /** .env.local after ensure_env_local_secrets. */
  function WithSecret(local: Option<string>, example: Option<string>, jwt: string): Option<string> {
    var text := TextOf(local);
    if SECRET in Keys(text) || !WantsSecret(example) then local
    else Some((if text != "" then WithoutNewlines(text) else GENERATED) + "\n" + SECRET + "=" + jwt + "\n")
  }

  lemma {:induction false} WithoutNewlinesReadsTheSame(text: string, key: string)
    ensures ValueIn(WithoutNewlines(text), key) == ValueIn(text, key)
    decreases |text|
  {
    hide Assigned, Pieces, Last;
    if EndsWith(text, "\n") {
      var t := text[..|text| - 1];
      assert text == t + "\n" + "";
      PiecesJoin(t, "");
      OnePiece("");
      EmptyAssignsNothing(key);
      LastAppends(Pieces(t), [""], key);
      WithoutNewlinesReadsTheSame(t, key);
    }
  }

  lemma SecretIsAssigned(jwt: string)
    ensures Assigned(SECRET + "=" + jwt) == Some((SECRET, jwt))
  {
    var line := SECRET + "=" + jwt;
    assert line == SECRET + ("" + ("=" + jwt));
    assert SECRET[0] == 'J' == line[0];
    assert !IsBlank('J');
    assert IsName(SECRET);
    hide IsName, Assigned, IsBlank;
    assert SkipBlanks(line) == line;
    PlainAssignment(line, SECRET, "", jwt);
  }

  lemma SecretValue(base: string, jwt: string, key: string)
    requires '\n' !in jwt
    ensures ValueIn(base + "\n" + (SECRET + "=" + jwt + "\n"), key) == if key == SECRET then Some(jwt) else ValueIn(base, key)
  {
    var line := SECRET + "=" + jwt;
    assert '\n' !in line;
    hide *;
    SecretIsAssigned(jwt);
    PiecesJoin(base, line + "\n");
    assert line + "\n" == line + "\n" + "";
    PiecesJoin(line, "");
    OnePiece(line);
    OnePiece("");
    LastAppends(Pieces(base), [line] + [""], key);
    LastAppends([line], [""], key);
    EmptyAssignsNothing(key);
    OneLast(line, key);
    SecretIsRead(jwt, key);
    ValueIsLast(base, key);
    ValueIsLast(base + "\n" + (line + "\n"), key);
  }

  lemma ValueIsLast(text: string, key: string)
    ensures ValueIn(text, key) == Last(Pieces(text), key)
  {
  }

  lemma SecretIsRead(jwt: string, key: string)
    ensures Assigns(SECRET + "=" + jwt, key) <==> key == SECRET
  {
    SecretIsAssigned(jwt);
  }

  lemma GeneratedIsComment()
    ensures GENERATED != "" && GENERATED[0] == '#' && '\n' !in GENERATED
  {
  }

  lemma GeneratedAssignsNothing(key: string)
    ensures ValueIn(GENERATED, key).None?
  {
    GeneratedIsComment();
    hide *;
    ValueIsLast(GENERATED, key);
    OnePiece(GENERATED);
    HashAssignsNothing(GENERATED, key);
    OneLast(GENERATED, key);
  }

  /** A secret is only ever added where there was none, and nothing else changes. */
  lemma WithSecretValue(local: Option<string>, example: Option<string>, jwt: string, key: string)
    requires '\n' !in jwt
    ensures ValueIn(TextOf(WithSecret(local, example, jwt)), key)
            == if key == SECRET && SECRET !in Keys(TextOf(local)) && WantsSecret(example) then Some(jwt)
               else ValueIn(TextOf(local), key)
  {
    hide *;
    var text := TextOf(local);
    WithSecretText(local, example, jwt);
    WithoutNewlinesReadsTheSame(text, key);
    GeneratedAssignsNothing(key);
    EmptyAssignsNothing(key);
    SecretValue(if text != "" then WithoutNewlines(text) else GENERATED, jwt, key);
  }

  lemma WithSecretText(local: Option<string>, example: Option<string>, jwt: string)
    ensures var text := TextOf(local);
            if SECRET in Keys(text) || !WantsSecret(example) then WithSecret(local, example, jwt) == local
            else TextOf(WithSecret(local, example, jwt))
                 == (if text != "" then WithoutNewlines(text) else GENERATED) + "\n" + (SECRET + "=" + jwt + "\n")
  {
    hide Keys, WantsSecret, WithoutNewlines, GENERATED, SECRET;
  }
}
