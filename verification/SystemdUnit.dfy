/**
The systemd user unit: `Unit` prints it, and the readers recover the command line and the
workspace from the file's text.
*/
module SystemdUnit {
  import opened Wrappers
  import opened ShellWords
  import opened Text

  datatype Service = Daemon | Manager | Gateway

  function Name(s: Service): string {
    match s
    case Daemon => "daemon"
    case Manager => "manager"
    case Gateway => "gateway"
  }

  const PACKAGE := "local_webpage_access."

  function ServiceModule(s: Service): string {
    match s
    case Daemon => PACKAGE + "daemon"
    case Manager => PACKAGE + "manager_service"
    case Gateway => PACKAGE + "gateway_service"
  }

  const WORKSPACE_FLAG := "--workspace"

  function Arguments(s: Service, python: string, workspace: string): seq<string> {
    [python, "-m", ServiceModule(s), WORKSPACE_FLAG, workspace]
  }

  // ---- Percent signs ---------------------------------------------------------------------

  /** s.replace("%", "%%") */
  function Doubled(s: string): string {
    if s == "" then "" else (if s[0] == '%' then "%%" else [s[0]]) + Doubled(s[1..])
  }

  /** s.replace("%%", "%"), which reads from the left and does not overlap. */
  function Undoubled(s: string): string {
    if s == "" then ""
    else if |s| >= 2 && s[0] == '%' && s[1] == '%' then "%" + Undoubled(s[2..])
    else [s[0]] + Undoubled(s[1..])
  }

  function AllDoubled(args: seq<string>): seq<string> {
    seq(|args|, i requires 0 <= i < |args| => Doubled(args[i]))
  }

  function AllUndoubled(args: seq<string>): seq<string> {
    seq(|args|, i requires 0 <= i < |args| => Undoubled(args[i]))
  }

  lemma {:induction false} UndoubledDoubled(s: string)
    ensures Undoubled(Doubled(s)) == s
  {
    if s != "" {
      UndoubledDoubled(s[1..]);
      var d := Doubled(s);
      if s[0] == '%' {
        assert d[2..] == Doubled(s[1..]);
      } else {
        assert d[1..] == Doubled(s[1..]);
      }
      assert [s[0]] + s[1..] == s;
    }
  }

  lemma {:induction false} DoubledAppends(s: string, t: string)
    ensures Doubled(s + t) == Doubled(s) + Doubled(t)
  {
    if s == "" {
      assert s + t == t;
    } else {
      assert (s + t)[1..] == s[1..] + t;
      DoubledAppends(s[1..], t);
    }
  }

  lemma {:induction false} DoubledStaysSafe(s: string)
    ensures AllSafe(Doubled(s)) <==> AllSafe(s)
    ensures Doubled(s) == "" <==> s == ""
  {
    if s != "" {
      DoubledStaysSafe(s[1..]);
      var head := if s[0] == '%' then "%%" else [s[0]];
      assert Doubled(s) == head + Doubled(s[1..]);
      assert AllSafe(s) <==> IsSafe(s[0]) && AllSafe(s[1..]) by {
        assert s == [s[0]] + s[1..];
      }
      assert forall k :: 0 <= k < |Doubled(s[1..])| ==> Doubled(s)[|head| + k] == Doubled(s[1..])[k];
      assert AllSafe(Doubled(s)) <==> IsSafe(s[0]) && AllSafe(Doubled(s[1..])) by {
        if AllSafe(Doubled(s)) { assert IsSafe(Doubled(s)[0]); }
      }
    }
  }

  lemma {:induction false} RequotedAppends(s: string, t: string)
    ensures Requoted(s + t) == Requoted(s) + Requoted(t)
  {
    if s == "" {
      assert s + t == t;
    } else {
      assert (s + t)[1..] == s[1..] + t;
      RequotedAppends(s[1..], t);
    }
  }

  lemma OneDoubledRequoted(c: char)
    ensures Doubled(Requoted([c])) == Requoted(Doubled([c]))
  {
    assert Requoted([c]) == if c == '\'' then "'\"'\"'" else [c];
    assert Doubled([c]) == if c == '%' then "%%" else [c];
    if c == '\'' {
      QuotesHaveNoPercent();
    } else if c == '%' {
      assert "%%"[1..] == "%" && Requoted("%") == "%";
    }
  }

  lemma {:induction false} DoubledRequoted(s: string)
    ensures Doubled(Requoted(s)) == Requoted(Doubled(s))
  {
    if s != "" {
      var c, rest := s[0], s[1..];
      assert s == [c] + rest;
      RequotedAppends([c], rest);
      DoubledAppends([c], rest);
      DoubledAppends(Requoted([c]), Requoted(rest));
      RequotedAppends(Doubled([c]), Doubled(rest));
      OneDoubledRequoted(c);
      DoubledRequoted(rest);
      hide Doubled, Requoted;
    }
  }

  lemma QuotesHaveNoPercent()
    ensures Doubled("'\"'\"'") == "'\"'\"'"
  {
    var q := "'\"'\"'";
    assert Doubled(q[4..]) == q[4..];
    assert q[3..][1..] == q[4..] && Doubled(q[3..]) == q[3..];
    assert q[2..][1..] == q[3..] && Doubled(q[2..]) == q[2..];
    assert q[1..][1..] == q[2..] && Doubled(q[1..]) == q[1..];
  }

  /** Doubling and quoting commute. */
  lemma DoubledQuoted(s: string)
    ensures Doubled(Quoted(s)) == Quoted(Doubled(s))
  {
    DoubledStaysSafe(s);
    if s == "" {
      assert Doubled("''") == "''" by { assert "''"[1..] == "'"; }
    } else if !AllSafe(s) {
      DoubledAppends("'" + Requoted(s), "'");
      DoubledAppends("'", Requoted(s));
      DoubledRequoted(s);
      assert Doubled("'") == "'";
    }
  }

  lemma {:induction false} DoubledLine(args: seq<string>)
    ensures Doubled(QuotedLine(args)) == QuotedLine(AllDoubled(args))
    decreases |args|
  {
    if |args| == 1 {
      DoubledQuoted(args[0]);
    } else if |args| > 1 {
      DoubledAppends(Quoted(args[0]) + " ", QuotedLine(args[1..]));
      DoubledAppends(Quoted(args[0]), " ");
      DoubledQuoted(args[0]);
      DoubledLine(args[1..]);
      assert Doubled(" ") == " ";
      assert AllDoubled(args)[1..] == AllDoubled(args[1..]);
    }
  }

  // ---- Lines -------------------------------------------------------------------------------

  /** What follows `prefix` on the first line that starts with it. */
  function FindLine(lines: seq<string>, prefix: string): Option<string> {
    if lines == [] then None
    else if StartsWith(lines[0], prefix) then Some(lines[0][|prefix|..])
    else FindLine(lines[1..], prefix)
  }

  /** Joining lines with newlines and splitting finds the same line, when they are lines. */
  lemma {:induction false} FindsJoinedLine(lines: seq<string>, prefix: string)
    requires forall k :: 0 <= k < |lines| ==> OneLine(lines[k])
    requires prefix != ""
    ensures FindLine(SplitLines(JoinedLines(lines)), prefix) == FindLine(lines, prefix)
    decreases |lines|
  {
    if |lines| == 1 {
      var s := lines[0];
      assert s[..|s|] == s;
      LineLengthIs(s, |s|);
      assert s != "" ==> SplitLines(s) == [s];
      assert FindLine(lines[1..], prefix) == None;
    } else if |lines| > 1 {
      FirstLine(lines[0], JoinedLines(lines[1..]));
      FindsJoinedLine(lines[1..], prefix);
      var found := SplitLines(JoinedLines(lines));
      assert found[1..] == SplitLines(JoinedLines(lines[1..]));
    }
  }

  // ---- The unit ----------------------------------------------------------------------------

  /** build_systemd_unit; `path` is the escaped PATH value, which the readers below do not use. */
  function UnitLines(s: Service, python: string, workspace: string, path: string): seq<string> {
    Header(s) + Body(s, python, workspace, path) + Trailer()
  }

  function Header(s: Service): seq<string> {
    [ "[Unit]",
      "Description=lwa " + Name(s) + " (foreground, supervised)",
      "After=network-online.target" + (if s == Manager then " lwa-daemon.service" else ""),
      "",
      "[Service]",
      "Type=simple" ]
  }

  function Body(s: Service, python: string, workspace: string, path: string): seq<string> {
    [ "WorkingDirectory=" + Doubled(workspace),
      "Environment=\"PATH=" + path + "\"",
      "ExecStart=" + Doubled(QuotedLine(Arguments(s, python, workspace))) ]
  }

  function Trailer(): seq<string> {
    ["Restart=on-failure", "RestartSec=5", "", "[Install]", "WantedBy=default.target", ""]
  }

  function Unit(s: Service, python: string, workspace: string, path: string): string {
    JoinedLines(UnitLines(s, python, workspace, path))
  }

  /** The unit, line by line, for each of the services. */
  lemma UnitIs(s: Service, python: string, workspace: string, path: string)
    ensures var (name, source, after) :=
              match s
              case Daemon => ("daemon", "local_webpage_access.daemon", "")
              case Manager => ("manager", "local_webpage_access.manager_service", " lwa-daemon.service")
              case Gateway => ("gateway", "local_webpage_access.gateway_service", "");
            UnitLines(s, python, workspace, path)
            == [ "[Unit]", "Description=lwa " + name + " (foreground, supervised)", "After=network-online.target" + after, "",
                 "[Service]", "Type=simple",
                 "WorkingDirectory=" + Doubled(workspace),
                 "Environment=\"PATH=" + path + "\"",
                 "ExecStart=" + Doubled(QuotedLine([python, "-m", source, "--workspace", workspace])),
                 "Restart=on-failure", "RestartSec=5", "", "[Install]", "WantedBy=default.target", "" ]
  {
    ModuleIs(s);
    hide Doubled, QuotedLine, ServiceModule;
  }

  lemma ModuleIs(s: Service)
    ensures ServiceModule(s)
            == match s
               case Daemon => "local_webpage_access.daemon"
               case Manager => "local_webpage_access.manager_service"
               case Gateway => "local_webpage_access.gateway_service"
  {
    assert PACKAGE + "daemon" == "local_webpage_access.daemon";
    assert PACKAGE + "manager_service" == "local_webpage_access.manager_service";
    assert PACKAGE + "gateway_service" == "local_webpage_access.gateway_service";
  }

  /** _grep_exec_start */
  function GrepExecStart(text: string): Option<string> {
    FindLine(SplitLines(text), "ExecStart=")
  }

  /** _unit_args; an unreadable command line gives no arguments. */
  function UnitArgs(text: string): seq<string> {
    match GrepExecStart(text)
    case None => []
    case Some(line) =>
      match Words(line)
      case None => []
      case Some(words) => AllUndoubled(words)
  }

  /** args[args.index("--workspace") + 1], when there is one. */
  function AfterFlag(args: seq<string>): Option<string> {
    if args == [] then None
    else if args[0] == WORKSPACE_FLAG then if |args| > 1 then Some(args[1]) else None
    else AfterFlag(args[1..])
  }

  /** _extract_workspace_from_unit */
  function ExtractWorkspace(text: string): Option<string> {
    AfterFlag(UnitArgs(text))
  }

  /** The directory that unit_points_to_workspace compares with the workspace. */
  function WorkingDirectory(text: string): Option<string> {
    match FindLine(SplitLines(text), "WorkingDirectory=")
    case None => None
    case Some(value) => Some(Undoubled(Stripped(value)))
  }

  // ---- One line in, one line out --------------------------------------------------------------

  lemma {:induction false} OneLineDoubled(s: string)
    requires OneLine(s)
    ensures OneLine(Doubled(s))
  {
    if s != "" {
      OneLineDoubled(s[1..]);
      assert !IsBreak(s[0]);
      OneLineAppends(if s[0] == '%' then "%%" else [s[0]], Doubled(s[1..]));
    }
  }

  lemma {:induction false} OneLineUndoubled(s: string)
    requires OneLine(s)
    ensures OneLine(Undoubled(s))
    decreases |s|
  {
    if s != "" {
      assert !IsBreak(s[0]);
      if |s| >= 2 && s[0] == '%' && s[1] == '%' {
        OneLineUndoubled(s[2..]);
        OneLineAppends("%", Undoubled(s[2..]));
      } else {
        OneLineUndoubled(s[1..]);
        OneLineAppends([s[0]], Undoubled(s[1..]));
      }
    }
  }

  lemma {:induction false} OneLineRequoted(s: string)
    requires OneLine(s)
    ensures OneLine(Requoted(s))
  {
    if s != "" {
      OneLineRequoted(s[1..]);
      assert !IsBreak(s[0]);
      OneLineAppends(if s[0] == '\'' then "'\"'\"'" else [s[0]], Requoted(s[1..]));
    }
  }

  lemma {:induction false} OneLineQuotedLine(args: seq<string>)
    requires forall k :: 0 <= k < |args| ==> OneLine(args[k])
    ensures OneLine(QuotedLine(args))
    decreases |args|
  {
    if args != [] {
      OneLineRequoted(args[0]);
      OneLineAppends("'", Requoted(args[0]));
      OneLineAppends("'" + Requoted(args[0]), "'");
      assert OneLine(Quoted(args[0]));
      if |args| > 1 {
        OneLineQuotedLine(args[1..]);
        OneLineAppends(Quoted(args[0]), " ");
        OneLineAppends(Quoted(args[0]) + " ", QuotedLine(args[1..]));
      }
    }
  }

  predicate AllLines(lines: seq<string>) {
    forall k :: 0 <= k < |lines| ==> OneLine(lines[k])
  }

  lemma DescriptionIsLine(s: Service)
    ensures OneLine("Description=lwa " + Name(s) + " (foreground, supervised)")
  {
    DescriptionParts();
    NameIsLine(s);
    hide OneLine, Name;
    OneLineAppends("Description=lwa ", Name(s));
    OneLineAppends("Description=lwa " + Name(s), " (foreground, supervised)");
  }

  lemma DescriptionParts()
    ensures OneLine("Description=lwa ") && OneLine(" (foreground, supervised)")
  {
  }

  lemma NameIsLine(s: Service)
    ensures OneLine(Name(s))
  {
  }

  lemma AfterIsLine(s: Service)
    ensures OneLine("After=network-online.target" + (if s == Manager then " lwa-daemon.service" else ""))
  {
    assert OneLine("After=network-online.target");
    OneLineAppends("After=network-online.target", if s == Manager then " lwa-daemon.service" else "");
  }

  lemma HeaderIsLines(s: Service)
    ensures AllLines(Header(s))
  {
    DescriptionIsLine(s);
    AfterIsLine(s);
    assert OneLine("[Unit]") && OneLine("") && OneLine("[Service]") && OneLine("Type=simple");
    hide OneLine, Name;
  }

  lemma TrailerIsLines()
    ensures AllLines(Trailer())
  {
    assert OneLine("Restart=on-failure") && OneLine("RestartSec=5") && OneLine("");
    assert OneLine("[Install]") && OneLine("WantedBy=default.target");
    hide OneLine;
  }

  lemma PackageIsLine()
    ensures OneLine(PACKAGE)
  {
  }

  lemma ModuleIsLine(s: Service)
    ensures OneLine(ServiceModule(s))
  {
    PackageIsLine();
    assert OneLine("daemon") && OneLine("manager_service") && OneLine("gateway_service");
    hide OneLine, PACKAGE;
    match s {
      case Daemon => OneLineAppends(PACKAGE, "daemon");
      case Manager => OneLineAppends(PACKAGE, "manager_service");
      case Gateway => OneLineAppends(PACKAGE, "gateway_service");
    }
  }

  lemma ArgumentsAreLines(s: Service, python: string, workspace: string)
    requires OneLine(python) && OneLine(workspace)
    ensures var args := Arguments(s, python, workspace); forall k :: 0 <= k < |args| ==> OneLine(args[k])
  {
    ModuleIsLine(s);
    assert OneLine("-m") && OneLine(WORKSPACE_FLAG);
    hide OneLine, ServiceModule, WORKSPACE_FLAG;
  }

  lemma CommandIsLine(s: Service, python: string, workspace: string)
    requires OneLine(python) && OneLine(workspace)
    ensures OneLine("ExecStart=" + Doubled(QuotedLine(Arguments(s, python, workspace))))
  {
    var args := Arguments(s, python, workspace);
    ArgumentsAreLines(s, python, workspace);
    OneLineQuotedLine(args);
    OneLineDoubled(QuotedLine(args));
    assert OneLine("ExecStart=");
    OneLineAppends("ExecStart=", Doubled(QuotedLine(args)));
    hide OneLine, Arguments, Doubled, QuotedLine;
  }

  lemma BodyIsLines(s: Service, python: string, workspace: string, path: string)
    requires OneLine(python) && OneLine(workspace) && OneLine(path)
    ensures AllLines(Body(s, python, workspace, path))
  {
    WorkdirIsLine(workspace);
    EnvironmentIsLine(path);
    CommandIsLine(s, python, workspace);
    hide Doubled, QuotedLine, Arguments, OneLine, Name;
  }

  lemma WorkdirIsLine(workspace: string)
    requires OneLine(workspace)
    ensures OneLine("WorkingDirectory=" + Doubled(workspace))
  {
    OneLineDoubled(workspace);
    OneLineAppends("WorkingDirectory=", Doubled(workspace));
  }

  lemma EnvironmentIsLine(path: string)
    requires OneLine(path)
    ensures OneLine("Environment=\"PATH=" + path + "\"")
  {
    OneLineAppends("Environment=\"PATH=", path);
    OneLineAppends("Environment=\"PATH=" + path, "\"");
  }

  lemma UnitLinesAreLines(s: Service, python: string, workspace: string, path: string)
    requires OneLine(python) && OneLine(workspace) && OneLine(path)
    ensures AllLines(UnitLines(s, python, workspace, path))
  {
    HeaderIsLines(s);
    BodyIsLines(s, python, workspace, path);
    TrailerIsLines();
    hide Header, Body, Trailer, OneLine;
  }

  lemma {:induction false} JoinedHasNoReturn(lines: seq<string>)
    requires forall k :: 0 <= k < |lines| ==> OneLine(lines[k])
    ensures '\r' !in JoinedLines(lines)
    decreases |lines|
  {
    if |lines| > 0 {
      assert '\r' !in lines[0];
      if |lines| > 1 { JoinedHasNoReturn(lines[1..]); }
    }
  }

  lemma {:induction false} FoundIsOneLine(lines: seq<string>, prefix: string)
    requires forall k :: 0 <= k < |lines| ==> OneLine(lines[k])
    requires FindLine(lines, prefix).Some?
    ensures OneLine(FindLine(lines, prefix).value)
    decreases |lines|
  {
    if StartsWith(lines[0], prefix) {
      assert OneLine(lines[0]);
    } else {
      FoundIsOneLine(lines[1..], prefix);
    }
  }

  /** Whatever the file holds, no argument read from it contains a line break. */
  lemma ArgsAreLines(text: string, k: nat)
    requires k < |UnitArgs(text)|
    ensures OneLine(UnitArgs(text)[k])
  {
    var line := GrepExecStart(text).value;
    forall l | l in SplitLines(text) ensures OneLine(l) { SplitGivesLines(text, l); }
    FoundIsOneLine(SplitLines(text), "ExecStart=");
    var w := Words(line).value[k];
    WordsComeFromTheLine(line, Gap, "", false, line, w);
    OneLineUndoubled(w);
  }

  // ---- The round trip -----------------------------------------------------------------------

  lemma AllUndoubledDoubled(args: seq<string>)
    ensures AllUndoubled(AllDoubled(args)) == args
  {
    forall i | 0 <= i < |args| ensures AllUndoubled(AllDoubled(args))[i] == args[i] { UndoubledDoubled(args[i]); }
  }

  lemma FindsExecStart(s: Service, python: string, workspace: string, path: string)
    ensures FindLine(UnitLines(s, python, workspace, path), "ExecStart=")
            == Some(Doubled(QuotedLine(Arguments(s, python, workspace))))
    ensures FindLine(UnitLines(s, python, workspace, path), "WorkingDirectory=") == Some(Doubled(workspace))
  {
    hide Doubled, QuotedLine;
    var lines := UnitLines(s, python, workspace, path);
    forall k | 0 <= k < 6 ensures !StartsWith(lines[k], "WorkingDirectory=") {
      StartsElsewhere(lines[k], "WorkingDirectory=", 0);
    }
    SkipLines(lines, 6, "WorkingDirectory=");
    assert lines[7] == "Environment=\"PATH=" + path + "\"";
    forall k | 0 <= k < 8 ensures !StartsWith(lines[k], "ExecStart=") {
      StartsElsewhere(lines[k], "ExecStart=", if k == 7 then 1 else 0);
    }
    SkipLines(lines, 8, "ExecStart=");
    var d, w := Doubled(QuotedLine(Arguments(s, python, workspace))), Doubled(workspace);
    AfterPrefix("WorkingDirectory=", w);
    AfterPrefix("ExecStart=", d);
    assert lines[6..][0] == "WorkingDirectory=" + w && lines[8..][0] == "ExecStart=" + d;
  }

  lemma AfterPrefix(prefix: string, s: string)
    ensures StartsWith(prefix + s, prefix) && (prefix + s)[|prefix|..] == s
  {
  }

  lemma StartsElsewhere(s: string, prefix: string, i: nat)
    requires i < |prefix| && (i >= |s| || s[i] != prefix[i])
    ensures !StartsWith(s, prefix)
  {
    assert |prefix| <= |s| ==> s[..|prefix|][i] == s[i];
  }

  lemma {:induction false} SkipLines(lines: seq<string>, n: nat, prefix: string)
    requires n <= |lines| && forall k :: 0 <= k < n ==> !StartsWith(lines[k], prefix)
    ensures FindLine(lines, prefix) == FindLine(lines[n..], prefix)
    decreases n
  {
    if n > 0 {
      assert lines[1..][n - 1..] == lines[n..];
      SkipLines(lines[1..], n - 1, prefix);
    }
  }

  lemma PrintedIsRead(s: Service, python: string, workspace: string, path: string)
    requires OneLine(python) && OneLine(workspace) && OneLine(path)
    ensures UnitArgs(AsRead(Unit(s, python, workspace, path))) == Arguments(s, python, workspace)
    ensures FindLine(SplitLines(AsRead(Unit(s, python, workspace, path))), "WorkingDirectory=") == Some(Doubled(workspace))
  {
    var lines := UnitLines(s, python, workspace, path);
    var args := Arguments(s, python, workspace);
    UnitLinesAreLines(s, python, workspace, path);
    JoinedHasNoReturn(lines);
    ReadsAsIs(JoinedLines(lines));
    FindsExecStart(s, python, workspace, path);
    FindsJoinedLine(lines, "ExecStart=");
    FindsJoinedLine(lines, "WorkingDirectory=");
    DoubledLine(args);
    LineReadsBack(AllDoubled(args));
    AllUndoubledDoubled(args);
    hide UnitLines, Arguments, JoinedLines, FindLine, SplitLines, Doubled, QuotedLine, AllDoubled, AllUndoubled, AsRead;
  }

  /** Printing a unit and reading it back gives exactly the printed arguments, for every
      interpreter and workspace -- spaces, quotes, backslashes and percent signs included --
      if and only if neither contains a line break. */
  lemma ArgumentsReadBack(s: Service, python: string, workspace: string, path: string)
    requires OneLine(path)
    ensures UnitArgs(AsRead(Unit(s, python, workspace, path))) == Arguments(s, python, workspace)
       <==> OneLine(python) && OneLine(workspace)
  {
    var text := AsRead(Unit(s, python, workspace, path));
    if OneLine(python) && OneLine(workspace) {
      PrintedIsRead(s, python, workspace, path);
    } else if UnitArgs(text) == Arguments(s, python, workspace) {
      ArgsAreLines(text, 0);
      ArgsAreLines(text, 4);
      assert false;
    }
  }

  /** The workspace is read back, unless the interpreter's own path is the flag. */
  lemma WorkspaceReadsBack(s: Service, python: string, workspace: string, path: string)
    requires OneLine(python) && OneLine(workspace) && OneLine(path)
    ensures ExtractWorkspace(AsRead(Unit(s, python, workspace, path))) == Some(workspace)
       <==> python != WORKSPACE_FLAG || workspace == "-m"
  {
    PrintedIsRead(s, python, workspace, path);
    hide UnitArgs, Unit, AsRead;
    FlagFound(python, ServiceModule(s), workspace);
    assert "-m"[0] == '-' && ServiceModule(s)[0] == 'l' && WORKSPACE_FLAG[0] == '-';
    assert |"-m"| == 2 && |WORKSPACE_FLAG| == 11;
  }

  lemma FlagFound(python: string, mod: string, workspace: string)
    requires mod != WORKSPACE_FLAG && "-m" != WORKSPACE_FLAG
    ensures AfterFlag([python, "-m", mod, WORKSPACE_FLAG, workspace])
            == if python == WORKSPACE_FLAG then Some("-m") else Some(workspace)
  {
    var args := [python, "-m", mod, WORKSPACE_FLAG, workspace];
    var args1, args2, args3 := args[1..], args[2..], args[3..];
    assert args1[1..] == args2 && args2[1..] == args3;
    assert AfterFlag(args3) == Some(workspace);
    assert AfterFlag(args2) == AfterFlag(args3);
    assert AfterFlag(args1) == AfterFlag(args2);
  }

  lemma DoubledEnds(s: string)
    requires s != ""
    ensures Doubled(s) != "" && Doubled(s)[0] == s[0] && Doubled(s)[|Doubled(s)| - 1] == s[|s| - 1]
    ensures !IsBlank(s[0]) || Doubled(s)[1..] == Doubled(s[1..])
    ensures !IsBlank(s[|s| - 1]) || Doubled(s)[..|Doubled(s)| - 1] == Doubled(s[..|s| - 1])
  {
    var n := |s| - 1;
    assert s == s[..n] + [s[n]];
    DoubledAppends(s[..n], [s[n]]);
    var last := if s[n] == '%' then "%%" else [s[n]];
    assert Doubled([s[n]]) == last;
    assert Doubled(s) == Doubled(s[..n]) + last;
    assert !IsBlank('%');
    if IsBlank(s[n]) {
      assert Doubled(s)[..|Doubled(s)| - 1] == Doubled(s[..n]);
    }
  }

  lemma {:induction false} StrippedDoubled(s: string)
    ensures Stripped(Doubled(s)) == Doubled(Stripped(s))
    decreases |s|
  {
    if s != "" {
      DoubledEnds(s);
      if IsBlank(s[0]) {
        StrippedDoubled(s[1..]);
      } else if IsBlank(s[|s| - 1]) {
        StrippedDoubled(s[..|s| - 1]);
      }
      hide Doubled;
    }
  }

  /** The WorkingDirectory line gives the workspace back without the blanks at its ends, so
      it names the workspace exactly when there are none. */
  lemma WorkingDirectoryReadsBack(s: Service, python: string, workspace: string, path: string)
    requires OneLine(python) && OneLine(workspace) && OneLine(path)
    ensures WorkingDirectory(AsRead(Unit(s, python, workspace, path))) == Some(workspace)
       <==> workspace == "" || (!IsBlank(workspace[0]) && !IsBlank(workspace[|workspace| - 1]))
  {
    PrintedIsRead(s, python, workspace, path);
    StrippedDoubled(workspace);
    UndoubledDoubled(Stripped(workspace));
    StrippedIsShorter(workspace);
    assert workspace == "" || (!IsBlank(workspace[0]) && !IsBlank(workspace[|workspace| - 1])) ==> Stripped(workspace) == workspace;
    hide Unit, AsRead, FindLine, SplitLines, Doubled, Undoubled, Stripped;
    assert WorkingDirectory(AsRead(Unit(s, python, workspace, path))) == Some(Stripped(workspace));
  }
}
