/**
Regenerating docker/.env: the old file is taken apart, the database URL is chosen, business
keys move to .env.local, .env is replaced, and a missing secret is filled in.  Each file is
replaced in one step, so the states a crash can leave are the ones between the steps.
*/
module EnvRegeneration {
  import opened Wrappers
  import opened Text
  import opened Urls
  import opened DatabaseUrl
  import opened EnvFile

  /** What the manifest and the source tree say. */
  datatype Settings = Settings(
    sqlite: bool,                 // the instance has a SQLite database
    consumes: bool,               // the application is known to read DATABASE_URL
    buildKeys: set<string>,       // build variables, which are not business keys
    hostPort: string,
    internalPort: string,
    memory: string,
    cpus: string,
    filename: Option<string>,     // the database file found in the source
    source: Option<Entry>)        // what copying that file leaves, None when there is none

  const HEADER := "# 由 lwa 自动生成，请勿手动编辑。"

  const NOT_READ_1A := "# A.R01: 未检测到应用消费 "
  const NOT_READ_1B := "DATABASE_URL，未自动注入。"
  const NOT_READ_2A := "# 如需注入，请在应用 config 中使用 "
  const NOT_READ_2B := "os.getenv('DATABASE_URL')。"
  const NOT_READ_1 := NOT_READ_1A + NOT_READ_1B
  const NOT_READ_2 := NOT_READ_2A + NOT_READ_2B

  predicate NoUrl(was: OldEnv) {
    was.url.None? || was.url.value == ""
  }

  /** The data directory when the URL is chosen. */
  function DataDir(m: Settings, was: OldEnv, d: Listing): Listing {
    if NoUrl(was) then AfterCopy(d, Wanted(m.filename), m.source) else d
  }

  /** The lines about DATABASE_URL; an error when there are several databases to choose from. */
  function UrlLines(m: Settings, was: OldEnv, d: Listing): Result<seq<string>, seq<string>> {
    if !m.sqlite then Ok([])
    else if !m.consumes then Ok([NOT_READ_1, NOT_READ_2])
    else
      match ChosenUrl(was.url, DataDir(m, was, d), Wanted(m.filename))
      case Err(names) => Err(names)
      case Ok(url) => Ok([Line("DATABASE_URL", url)])
  }

  function Line(key: string, value: string): string {
    key + "=" + value
  }

  function PlainLines(m: Settings): seq<string> {
    [ HEADER,
      Line("HOST_PORT", m.hostPort),
      Line("INTERNAL_PORT", m.internalPort),
      Line("MEMORY_LIMIT", m.memory),
      Line("CPU_LIMIT", m.cpus) ]
  }

  function NewEnv(m: Settings, urlLines: seq<string>): string {
    JoinedLines(PlainLines(m) + urlLines) + "\n"
  }

  function Old(f: Files, m: Settings): OldEnv {
    OldEnvOf(f.env, m.sqlite, m.buildKeys)
  }

  /** The two files after each of the three writes. */
  function Moved(f: Files, m: Settings): Files {
    Files(f.env, Migrated(f.local, Old(f, m).business))
  }

  function Rewritten(f: Files, m: Settings, urlLines: seq<string>): Files {
    Files(Some(NewEnv(m, urlLines)), Moved(f, m).local)
  }

  function Finished(f: Files, m: Settings, urlLines: seq<string>, example: Option<string>, jwt: string): Files {
    Files(Some(NewEnv(m, urlLines)), WithSecret(Moved(f, m).local, example, jwt))
  }

  /** `s` is one of the states regeneration goes through; there are none when it refuses. */
  predicate Stage(s: Files, f: Files, m: Settings, d: Listing, example: Option<string>, jwt: string) {
    var u := UrlLines(m, Old(f, m), d);
    && u.Ok?
    && (s == Moved(f, m) || s == Rewritten(f, m, u.value) || s == Finished(f, m, u.value, example, jwt))
  }

  // ---- The steps ------------------------------------------------------------------------------

  /** Which operations work. */
  datatype Luck = Luck(readEnv: bool, backup: bool, readLocal: bool, writeLocal: bool, writeEnv: bool,
                       readAgain: bool, readExample: bool, writeSecret: bool)

  predicate NothingFails(luck: Luck) {
    luck == Luck(true, true, true, true, true, true, true, true)
  }

  datatype Stop = EnvUnreadable | Ambiguous(names: seq<string>) | NoBackup | NotMigrated | NotWritten | NoSecret

  class DockerDir {
    var env: Option<string>
    var local: Option<string>
    ghost var past: seq<Files>   // the states gone through, the present one last

    constructor (f: Files)
      ensures Now() == f && past == [f]
    {
      env, local, past := f.env, f.local, [f];
    }

    function Now(): Files
      reads this
    {
      Files(env, local)
    }

    /** _atomic_write_env of .env.local */
    method WriteLocal(text: string)
      modifies this
      ensures env == old(env) && local == Some(text) && past == old(past) + [Now()]
    {
      local := Some(text);
      past := past + [Files(env, local)];
    }

    method WriteEnv(text: string)
      modifies this
      ensures env == Some(text) && local == old(local) && past == old(past) + [Now()]
    {
      env := Some(text);
      past := past + [Files(env, local)];
    }

    /** _migrate_business_keys_to_env_local */
    method Migrate(business: seq<(string, string)>, luck: Luck) returns (done: bool)
      modifies this
      ensures env == old(env)
      ensures local == if done then Migrated(old(local), business) else old(local)
      ensures luck.readLocal && luck.writeLocal ==> done
      ensures past == old(past) || (done && past == old(past) + [Now()])
    {
      hide Keys, JoinedLines, WithNewline;
      if local.Some? && !luck.readLocal { return false; }
      var text := if local.Some? then local.value else "";
      var taken := Keys(text);
      var add: seq<string> := [];
      var i := 0;
      while i < |business|
        invariant i <= |business|
        invariant add + Appended(business[i..], taken) == Appended(business, Keys(text))
      {
        var (key, raw) := business[i];
        assert business[i..][1..] == business[i + 1..];
        if key !in taken {
          taken := taken + {key};
          add := add + [raw];
        }
        i := i + 1;
      }
      assert business[i..] == [] && add + [] == add;
      if add == [] { return true; }
      if !luck.writeLocal { return false; }
      WriteLocal(WithNewline(text) + MOVED + "\n" + JoinedLines(add) + "\n");
      done := true;
    }

    /** ensure_env_local_secrets */
    method EnsureSecret(example: Option<string>, jwt: string, luck: Luck) returns (done: bool)
      modifies this
      ensures env == old(env)
      ensures local == if done then WithSecret(old(local), example, jwt) else old(local)
      ensures luck.readAgain && luck.readExample && luck.writeSecret ==> done
      ensures past == old(past) || (done && past == old(past) + [Now()])
    {
      hide Keys, ExampleSecret, WithoutNewlines, Stripped, GENERATED;
      if local.Some? && !luck.readAgain { return false; }
      var text := TextOf(local);
      if local.Some? && SECRET in Keys(text) { return true; }
      NoKeysInNothing();
      if example.None? { return true; }
      if !luck.readExample { return false; }
      var given := ExampleSecret(Pieces(example.value));
      if given.None? || Stripped(given.value) != "" { return true; }
      if !luck.writeSecret { return false; }
      WriteLocal((if text != "" then WithoutNewlines(text) else GENERATED) + "\n" + SECRET + "=" + jwt + "\n");
      done := true;
    }

    /** generate_env.  Whatever fails, the directory is left in one of the stages or as it
        was, and it never goes through any other state. */
    method Regenerate(m: Settings, d: Listing, example: Option<string>, jwt: string, luck: Luck) returns (stop: Option<Stop>)
      modifies this
      ensures var was, u := old(Now()), UrlLines(m, Old(old(Now()), m), d);
              && (stop.None? ==> u.Ok? && Now() == Finished(was, m, u.value, example, jwt))
              && (stop == Some(NoSecret) ==> u.Ok? && Now() == Rewritten(was, m, u.value))
              && (stop == Some(NotWritten) ==> u.Ok? && Now() == Moved(was, m))
              && (stop.Some? && stop.value !in {NoSecret, NotWritten} ==> Now() == was)
              && (stop.Some? && stop.value.Ambiguous? ==> u == Err(stop.value.names))
      // A file with lines that cannot be read is not touched before there is a backup.
      ensures Old(old(Now()), m).unreadable != [] && !luck.backup ==> stop.Some? && past == old(past)
      // When nothing fails, only an ambiguous database stops it.
      ensures NothingFails(luck) ==> stop.None? || stop.value.Ambiguous?
      ensures old(past) <= past
      ensures forall k :: |old(past)| <= k < |past| ==> Stage(past[k], old(Now()), m, d, example, jwt)
    {
      hide OldEnvOf, UrlLines, Migrated, WithSecret, NewEnv;
      ghost var was := Now();
      stop := None;
      if env.Some? && !luck.readEnv { return Some(EnvUnreadable); }
      var e := ParseExisting(env, m.sqlite, m.buildKeys);
      var urlLines := UrlLines(m, e, d);
      if urlLines.Err? { return Some(Ambiguous(urlLines.error)); }
      if e.unreadable != [] && !luck.backup { return Some(NoBackup); }
      if e.business != [] {
        var done := Migrate(e.business, luck);
        if !done { return Some(NotMigrated); }
      } else {
        NothingMigrates(local);
      }
      assert Now() == Moved(was, m);
      if !luck.writeEnv { return Some(NotWritten); }
      WriteEnv(NewEnv(m, urlLines.value));
      assert Now() == Rewritten(was, m, urlLines.value);
      var done := EnsureSecret(example, jwt, luck);
      if !done { return Some(NoSecret); }
      assert Now() == Finished(was, m, urlLines.value, example, jwt);
    }
  }

  lemma NoKeysInNothing()
    ensures Keys("") == {}
  {
    OnePiece("");
    assert Assigned("").None?;
  }

  lemma NothingMigrates(local: Option<string>)
    ensures Migrated(local, []) == local
  {
  }

  /** What regeneration has to carry over: everything but the settings it writes, the build keys,
      and the DATABASE_URL of an instance with a SQLite database. */
  predicate Carried(m: Settings, key: string) {
    if key == "DATABASE_URL" then !m.sqlite
    else key !in {"HOST_PORT", "INTERNAL_PORT", "MEMORY_LIMIT", "CPU_LIMIT"} && key !in m.buildKeys
  }

  // ---- No value is lost -------------------------------------------------------------------------

  /** The key has a business line in the old .env. */
  predicate IsBusiness(f: Files, m: Settings, key: string) {
    FirstValue(Old(f, m).business, key).Some?
  }

  predicate InLocal(f: Files, key: string) {
    key in Keys(TextOf(f.local))
  }

  /** The local value of a key in every stage. */
  lemma LocalValue(s: Files, f: Files, m: Settings, d: Listing, example: Option<string>, jwt: string, key: string)
    requires '\n' !in jwt && Stage(s, f, m, d, example, jwt)
    requires InLocal(f, key) || IsBusiness(f, m, key)
    ensures ValueIn(TextOf(s.local), key)
            == if InLocal(f, key) then ValueIn(TextOf(f.local), key) else FirstValue(Old(f, m).business, key)
    ensures ValueIn(TextOf(s.local), key).Some?
  {
    hide OldEnvOf, UrlLines, Migrated, WithSecret, NewEnv, ValueIn, FirstValue, Keys, WellFiled, WantsSecret;
    OldEnvIsWellFiled(f.env, m.sqlite, m.buildKeys);
    MigratedValue(f.local, Old(f, m).business, key);
    KeysAreAssigned(TextOf(f.local), key);
    KeysAreAssigned(TextOf(Moved(f, m).local), key);
    WithSecretValue(Moved(f, m).local, example, jwt, key);
  }

  /** At every point where regeneration can be cut short, a business key has the value it had,
      exactly when .env.local already had the key or the first of its lines in the old .env
      assigns what the last one assigns. */
  lemma BusinessValuesSurviveEveryCrash(f: Files, m: Settings, d: Listing, example: Option<string>, jwt: string, key: string)
    requires '\n' !in jwt && UrlLines(m, Old(f, m), d).Ok? && IsBusiness(f, m, key)
    ensures (forall s :: Stage(s, f, m, d, example, jwt) ==> Effective(s, key) == Effective(f, key))
       <==> InLocal(f, key) || FirstValue(Old(f, m).business, key) == ValueIn(TextOf(f.env), key)
  {
    hide OldEnvOf, UrlLines, Migrated, WithSecret, NewEnv, ValueIn, FirstValue, Keys;
    KeysAreAssigned(TextOf(f.local), key);
    forall s | Stage(s, f, m, d, example, jwt)
      ensures Effective(s, key)
              == if InLocal(f, key) then ValueIn(TextOf(f.local), key) else FirstValue(Old(f, m).business, key)
    {
      LocalValue(s, f, m, d, example, jwt, key);
    }
    assert Stage(Moved(f, m), f, m, d, example, jwt);
  }

  /** What .env.local assigned keeps its value throughout. */
  lemma LocalValuesSurviveEveryCrash(f: Files, m: Settings, d: Listing, example: Option<string>, jwt: string, key: string)
    requires '\n' !in jwt && InLocal(f, key)
    ensures forall s :: Stage(s, f, m, d, example, jwt) ==> Effective(s, key) == Effective(f, key)
  {
    hide OldEnvOf, UrlLines, Migrated, WithSecret, NewEnv, ValueIn, FirstValue, Keys;
    KeysAreAssigned(TextOf(f.local), key);
    forall s | Stage(s, f, m, d, example, jwt) ensures Effective(s, key) == Effective(f, key) {
      LocalValue(s, f, m, d, example, jwt, key);
    }
  }

  /** A secret that .env.local or a business line of .env defines is never generated anew. */
  lemma SecretIsNeverReplaced(f: Files, m: Settings, d: Listing, example: Option<string>, jwt: string)
    requires '\n' !in jwt && UrlLines(m, Old(f, m), d).Ok? && (InLocal(f, SECRET) || IsBusiness(f, m, SECRET))
    ensures forall s :: Stage(s, f, m, d, example, jwt) ==> s.local == Moved(f, m).local
  {
    hide OldEnvOf, UrlLines, Migrated, NewEnv, ValueIn, FirstValue, Keys, WantsSecret, SECRET;
    LocalValue(Moved(f, m), f, m, d, example, jwt, SECRET);
    KeysAreAssigned(TextOf(Moved(f, m).local), SECRET);
  }

  // ---- When the first line is the last --------------------------------------------------------------

  /** The file breaks its lines at newlines only, and assigns no key twice. */
  predicate NoDuplicates(text: string) {
    var lines := Pieces(text);
    && (forall k :: 0 <= k < |text| && IsBreak(text[k]) ==> text[k] == '\n')
    && (forall i, j :: 0 <= i < j < |lines| && Assigned(lines[i]).Some? ==> !Assigns(lines[j], Assigned(lines[i]).value.0))
  }

  lemma {:induction false} SplitIsPieces(text: string)
    requires forall k :: 0 <= k < |text| && IsBreak(text[k]) ==> text[k] == '\n'
    ensures var lines := SplitLines(text); Pieces(text) == lines || Pieces(text) == lines + [""]
    decreases |text|
  {
    if text != "" {
      var n := LineLength(text);
      assert IsBreak('\n');
      hide IsBreak, LineLength;
      assert forall k :: 0 <= k < n ==> text[k] != '\n' by {
        assert forall k :: 0 <= k < n ==> !IsBreak(text[..n][k]);
      }
      FindIs(text, "\n", n);
      if n < |text| {
        assert text[n] == '\n';
        SplitIsPieces(text[n + 1..]);
      } else {
        assert text[..n] == text;
      }
    }
  }

  lemma {:induction false} FirstIsALine(lines: seq<string>, sqlite: bool, extra: set<string>, key: string) returns (i: nat)
    requires FirstValue(Parsed(lines, sqlite, extra).business, key).Some?
    ensures i < |lines| && Assigns(lines[i], key) && Classified(lines[i], sqlite, extra) == Business(key)
    ensures FirstValue(Parsed(lines, sqlite, extra).business, key) == Some(Assigned(lines[i]).value.1)
  {
    hide Classified, Assigned;
    i := 0;
    if lines != [] {
      var n := |lines| - 1;
      var before := Parsed(lines[..n], sqlite, extra).business;
      if FirstValue(before, key).Some? {
        i := FirstIsALine(lines[..n], sqlite, extra, key);
        if Classified(lines[n], sqlite, extra).Business? {
          FirstOfMore(before, (Classified(lines[n], sqlite, extra).key, lines[n]), key);
        }
      } else {
        i := n;
        if Classified(lines[n], sqlite, extra).Business? {
          FirstOfMore(before, (Classified(lines[n], sqlite, extra).key, lines[n]), key);
          ParserAgrees(lines[n], sqlite, extra);
        }
      }
    }
  }

  lemma {:induction false} FirstOfMore(business: seq<(string, string)>, last: (string, string), key: string)
    ensures FirstValue(business + [last], key)
            == if FirstValue(business, key).Some? then FirstValue(business, key)
               else if last.0 == key && Assigned(last.1).Some? then Some(Assigned(last.1).value.1) else None
    decreases |business|
  {
    hide Assigned;
    if business == [] {
      assert business + [last] == [last];
      assert [last][1..] == [];
    } else {
      assert (business + [last])[1..] == business[1..] + [last];
      FirstOfMore(business[1..], last, key);
    }
  }

  lemma {:induction false} OnlyAssignment(lines: seq<string>, i: nat, key: string)
    requires i < |lines| && Assigns(lines[i], key)
    requires forall j :: i < j < |lines| ==> !Assigns(lines[j], key)
    ensures Last(lines, key) == Some(Assigned(lines[i]).value.1)
    decreases |lines|
  {
    hide Assigned;
    var n := |lines| - 1;
    if i < n {
      OnlyAssignment(lines[..n], i, key);
    }
  }

  /** With no key assigned twice, the first line of a key is the last. */
  lemma FirstIsLast(f: Files, m: Settings, key: string)
    requires f.env.Some? && NoDuplicates(f.env.value) && IsBusiness(f, m, key)
    ensures FirstValue(Old(f, m).business, key) == ValueIn(f.env.value, key)
  {
    var text := f.env.value;
    SplitIsPieces(text);
    hide IsBreak, SplitLines, Pieces, FirstValue, Parsed, Assigned, Last;
    var lines := SplitLines(text);
    var i := FirstIsALine(lines, m.sqlite, m.buildKeys, key);
    assert Pieces(text)[i] == lines[i];
    OnlyAssignment(Pieces(text), i, key);
  }

  /** With no key assigned twice, every business value survives every crash. */
  lemma NothingIsLost(f: Files, m: Settings, d: Listing, example: Option<string>, jwt: string, key: string, s: Files)
    requires f.env.Some? && NoDuplicates(f.env.value) && IsBusiness(f, m, key)
    requires '\n' !in jwt && Stage(s, f, m, d, example, jwt)
    ensures Effective(s, key) == Effective(f, key)
  {
    hide NoDuplicates, Effective, Old, FirstValue, Keys, Moved, Rewritten, Finished, UrlLines;
    FirstIsLast(f, m, key);
    BusinessValuesSurviveEveryCrash(f, m, d, example, jwt, key);
  }

  // ---- Every other key, whatever the parser calls it -------------------------------------------------

  lemma {:induction false} BusinessHasValue(lines: seq<string>, sqlite: bool, extra: set<string>, i: nat, key: string)
    requires i < |lines| && Classified(lines[i], sqlite, extra) == Business(key)
    ensures FirstValue(Parsed(lines, sqlite, extra).business, key).Some?
    decreases |lines|
  {
    hide Classified, Assigned;
    var n := |lines| - 1;
    var before := Parsed(lines[..n], sqlite, extra).business;
    ParserAgrees(lines[i], sqlite, extra);
    if i < n {
      BusinessHasValue(lines[..n], sqlite, extra, i, key);
    }
    if Classified(lines[n], sqlite, extra).Business? {
      FirstOfMore(before, (Classified(lines[n], sqlite, extra).key, lines[n]), key);
    }
  }

  /** One of the lines assigns the key as the parser reads it. */
  ghost predicate ReadablyAssigned(text: string, key: string) {
    exists i :: 0 <= i < |Pieces(text)| && Plainly(Pieces(text)[i], key)
  }

  lemma EmptyIsNotPlain(key: string)
    ensures !Plainly("", key)
  {
    hide *;
    if Plainly("", key) {
      PlainIsNotEmpty("", key);
    }
  }

  lemma PlainIsNotEmpty(line: string, key: string)
    requires Plainly(line, key)
    ensures line != ""
  {
    hide AllBlank;
    var value :| WrittenAs(line, key, value);
    var a, exported, c, b :| Written(line, key, value, a, exported, c, b);
  }

  /** A key that is to be carried over has a business line exactly when one of its lines is a
      plain or an exported assignment. */
  lemma BusinessIff(f: Files, m: Settings, key: string)
    requires f.env.Some? && (forall k :: 0 <= k < |f.env.value| && IsBreak(f.env.value[k]) ==> f.env.value[k] == '\n')
    requires Carried(m, key) && IsName(key)
    ensures IsBusiness(f, m, key) <==> ReadablyAssigned(f.env.value, key)
  {
    var text := f.env.value;
    SplitIsPieces(text);
    var lines, pieces := SplitLines(text), Pieces(text);
    hide IsBreak, SplitLines, Pieces, Parsed, FirstValue, Classified, Plainly, IsName, Assigned;
    if IsBusiness(f, m, key) {
      var i := FirstIsALine(lines, m.sqlite, m.buildKeys, key);
      RefusedIff(lines[i], key, m.sqlite, m.buildKeys);
      assert pieces[i] == lines[i] && Plainly(pieces[i], key);
    }
    if ReadablyAssigned(text, key) {
      var i :| 0 <= i < |pieces| && Plainly(pieces[i], key);
      EmptyIsNotPlain(key);
      assert i < |lines| && lines[i] == pieces[i];
      PlainIsBusiness(lines[i], m, key);
      BusinessHasValue(lines, m.sqlite, m.buildKeys, i, key);
    }
  }

  lemma PlainIsBusiness(line: string, m: Settings, key: string)
    requires Plainly(line, key) && Carried(m, key) && IsName(key)
    ensures Classified(line, m.sqlite, m.buildKeys) == Business(key)
  {
    hide Classified, WrittenAs, IsName;
    var value :| WrittenAs(line, key, value);
    WrittenIsFiled(line, key, value, m.sqlite, m.buildKeys);
  }

  lemma ValueIsName(text: string, key: string)
    requires ValueIn(text, key).Some?
    ensures IsName(key)
  {
    hide Assigned, Pieces, Last, IsName;
    LastIsAssigned(Pieces(text), key);
    var k :| 0 <= k < |Pieces(text)| && Assigns(Pieces(text)[k], key);
    AssignedIsName(Pieces(text)[k], key);
  }

  lemma ReadableHasValue(text: string, key: string)
    requires ReadablyAssigned(text, key) && IsName(key)
    ensures ValueIn(text, key).Some?
  {
    hide Assigned, Pieces, Last, IsName, WrittenAs;
    var i :| 0 <= i < |Pieces(text)| && Plainly(Pieces(text)[i], key);
    var value :| WrittenAs(Pieces(text)[i], key, value);
    WrittenIsAssigned(Pieces(text)[i], key, value);
    LastIsAssigned(Pieces(text), key);
  }

  /** Whatever a .env without duplicates assigns on a plain or an exported line keeps its
      effective value at every point where regeneration can be cut short, unless it is one of
      the settings, a build key, or a managed DATABASE_URL. */
  lemma EveryOtherKeyKeepsItsValue(f: Files, m: Settings, d: Listing, example: Option<string>, jwt: string,
                                   key: string, s: Files)
    requires f.env.Some? && NoDuplicates(f.env.value)
    requires ValueIn(f.env.value, key).Some? && ReadablyAssigned(f.env.value, key)
    requires key !in {"HOST_PORT", "INTERNAL_PORT", "MEMORY_LIMIT", "CPU_LIMIT"}
    requires if key == "DATABASE_URL" then !m.sqlite else key !in m.buildKeys
    requires '\n' !in jwt && Stage(s, f, m, d, example, jwt)
    ensures Effective(s, key) == Effective(f, key)
  {
    ValueIsName(f.env.value, key);
    hide ValueIn, ReadablyAssigned, Effective, Stage, IsBusiness, IsName, IsBreak, Assigned, Pieces;
    BusinessIff(f, m, key);
    NothingIsLost(f, m, d, example, jwt, key, s);
  }

  // ---- Regenerating again ------------------------------------------------------------------------------

  lemma HashIsSkipped(line: string, sqlite: bool, extra: set<string>)
    requires line != "" && line[0] == '#'
    ensures Classified(line, sqlite, extra).Skipped?
  {
    var rest := line[1..];
    assert line == "#" + rest && !IsBlank('#');
    hide Stripped, IsBlank;
    StrippedAfter("#", rest);
  }

  /** How a line written as KEY=value is taken apart. */
  lemma AssignmentKind(key: string, value: string, sqlite: bool, extra: set<string>)
    requires IsName(key)
    ensures Classified(Line(key, value), sqlite, extra) == Filed(key, Trimmed(value), sqlite, extra)
  {
    var line := Line(key, value);
    assert line == "" + (key + "" + "=" + value);
    hide IsName, Classified, Filed, Trimmed;
    PlainIsFiled(line, "", key, "", value, sqlite, extra);
  }

  predicate Quiet(k: Kind) {
    k.Skipped? || k.Managed?
  }

  lemma {:induction false} QuietLines(lines: seq<string>, sqlite: bool, extra: set<string>)
    requires forall k :: 0 <= k < |lines| ==> Quiet(Classified(lines[k], sqlite, extra))
    ensures Parsed(lines, sqlite, extra) == NOTHING
  {
    hide Classified;
    if lines != [] {
      QuietLines(lines[..|lines| - 1], sqlite, extra);
    }
  }

  /** What is written for each setting is one line. */
  predicate OneLineEach(m: Settings) {
    OneLine(m.hostPort) && OneLine(m.internalPort) && OneLine(m.memory) && OneLine(m.cpus)
  }

  lemma AssignmentIsOneLine(key: string, value: string)
    requires IsName(key) && OneLine(value)
    ensures OneLine(Line(key, value))
  {
    forall c | IsWordChar(c) || c == '=' ensures !IsBreak(c) {
    }
    var line := Line(key, value);
    forall k | 0 <= k < |line| ensures !IsBreak(line[k]) {
      if k > |key| { assert line[k] == value[k - |key| - 1]; }
    }
  }

  lemma ManagedNames()
    ensures IsName("HOST_PORT") && IsName("INTERNAL_PORT") && IsName("MEMORY_LIMIT") && IsName("CPU_LIMIT")
    ensures IsName("DATABASE_URL")
  {
  }

  /** The setting on a line of the regenerated file. */
  function Setting(m: Settings, k: nat): (string, string)
    requires 1 <= k < 5
  {
    if k == 1 then ("HOST_PORT", m.hostPort)
    else if k == 2 then ("INTERNAL_PORT", m.internalPort)
    else if k == 3 then ("MEMORY_LIMIT", m.memory)
    else ("CPU_LIMIT", m.cpus)
  }

  lemma SettingIsManaged(m: Settings, k: nat)
    requires 1 <= k < 5
    ensures PlainLines(m)[k] == Line(Setting(m, k).0, Setting(m, k).1)
    ensures IsName(Setting(m, k).0) && Setting(m, k).0 in {"HOST_PORT", "INTERNAL_PORT", "MEMORY_LIMIT", "CPU_LIMIT"}
    ensures OneLineEach(m) ==> OneLine(Setting(m, k).1)
  {
    ManagedNames();
    hide IsName, OneLine, Line, HEADER;
  }

  lemma HeaderIsOneLine()
    ensures HEADER != "" && HEADER[0] == '#' && OneLine(HEADER)
  {
  }

  lemma NotReadIsOneLine1()
    ensures NOT_READ_1 != "" && NOT_READ_1[0] == '#' && OneLine(NOT_READ_1)
  {
    assert NOT_READ_1A[0] == '#' && OneLine(NOT_READ_1A) && OneLine(NOT_READ_1B);
    OneLineAppends(NOT_READ_1A, NOT_READ_1B);
    hide OneLine;
  }

  lemma NotReadIsOneLine2()
    ensures NOT_READ_2 != "" && NOT_READ_2[0] == '#' && OneLine(NOT_READ_2)
  {
    SecondNoteStarts();
    SecondNoteEnds();
    hide OneLine, NOT_READ_2A, NOT_READ_2B;
    OneLineAppends(NOT_READ_2A, NOT_READ_2B);
  }

  lemma SecondNoteStarts()
    ensures NOT_READ_2A != "" && NOT_READ_2A[0] == '#' && OneLine(NOT_READ_2A)
  {
  }

  lemma SecondNoteEnds()
    ensures OneLine(NOT_READ_2B)
  {
  }

  lemma PlainLinesAreQuiet(m: Settings, k: nat)
    requires OneLineEach(m) && k < 5
    ensures OneLine(PlainLines(m)[k]) && Quiet(Classified(PlainLines(m)[k], m.sqlite, m.buildKeys))
  {
    HeaderIsOneLine();
    hide OneLine, Classified, IsName, HEADER, Line, OneLineEach, Setting;
    if k == 0 {
      HashIsSkipped(HEADER, m.sqlite, m.buildKeys);
    } else {
      SettingIsManaged(m, k);
      AssignmentIsOneLine(Setting(m, k).0, Setting(m, k).1);
      AssignmentKind(Setting(m, k).0, Setting(m, k).1, m.sqlite, m.buildKeys);
    }
  }

  /** What a regenerated .env holds: no business key, and the URL that was written. */
  lemma NewEnvParsed(m: Settings, urlLines: seq<string>, url: Option<string>)
    requires OneLineEach(m)
    requires url.Some? ==> m.sqlite && OneLine(url.value) && urlLines == [Line("DATABASE_URL", url.value)]
    requires url.None? ==> forall k :: 0 <= k < |urlLines| ==>
                             OneLine(urlLines[k]) && Quiet(Classified(urlLines[k], m.sqlite, m.buildKeys))
    ensures OldEnvOf(Some(NewEnv(m, urlLines)), m.sqlite, m.buildKeys)
            == NOTHING.(url := if url.Some? then Some(Trimmed(url.value)) else None)
  {
    hide *;
    NothingHasNoUrl();
    FiveLines(m);
    var plain := PlainLines(m);
    forall k | 0 <= k < |plain| ensures OneLine(plain[k]) && Quiet(Classified(plain[k], m.sqlite, m.buildKeys)) {
      PlainLinesAreQuiet(m, k);
    }
    if url.Some? {
      UrlIsOneLine(url.value);
      UrlLineParsed(plain, url.value, m.buildKeys);
    } else {
      QuietLines(plain + urlLines, m.sqlite, m.buildKeys);
    }
    NewEnvLines(m, urlLines);
  }

  lemma NothingHasNoUrl()
    ensures NOTHING.(url := None) == NOTHING
  {
  }

  lemma FiveLines(m: Settings)
    ensures |PlainLines(m)| == 5
  {
  }

  lemma NewEnvLines(m: Settings, urlLines: seq<string>)
    requires forall k :: 0 <= k < |PlainLines(m)| ==> OneLine(PlainLines(m)[k])
    requires forall k :: 0 <= k < |urlLines| ==> OneLine(urlLines[k])
    ensures OldEnvOf(Some(NewEnv(m, urlLines)), m.sqlite, m.buildKeys) == Parsed(PlainLines(m) + urlLines, m.sqlite, m.buildKeys)
  {
    FiveLines(m);
    hide OneLine, PlainLines, SplitLines, Parsed;
    SplitJoined(PlainLines(m) + urlLines);
  }

  lemma UrlIsOneLine(url: string)
    requires OneLine(url)
    ensures OneLine(Line("DATABASE_URL", url))
  {
    ManagedNames();
    hide OneLine, IsName, Line;
    AssignmentIsOneLine("DATABASE_URL", url);
  }

  /** Settings, and then the line that gives the URL. */
  lemma UrlLineParsed(plain: seq<string>, url: string, extra: set<string>)
    requires forall k :: 0 <= k < |plain| ==> Quiet(Classified(plain[k], true, extra))
    ensures Parsed(plain + [Line("DATABASE_URL", url)], true, extra) == NOTHING.(url := Some(Trimmed(url)))
  {
    ManagedNames();
    hide Classified, Quiet, IsName, Trimmed;
    AssignmentKind("DATABASE_URL", url, true, extra);
    QuietLines(plain, true, extra);
    var lines := plain + [Line("DATABASE_URL", url)];
    assert lines[..|lines| - 1] == plain;
  }

  lemma NotReadAreQuiet(m: Settings)
    ensures OneLine(NOT_READ_1) && Quiet(Classified(NOT_READ_1, m.sqlite, m.buildKeys))
    ensures OneLine(NOT_READ_2) && Quiet(Classified(NOT_READ_2, m.sqlite, m.buildKeys))
  {
    NotReadIsOneLine1();
    NotReadIsOneLine2();
    hide OneLine, Classified, NOT_READ_1, NOT_READ_2;
    HashIsSkipped(NOT_READ_1, m.sqlite, m.buildKeys);
    HashIsSkipped(NOT_READ_2, m.sqlite, m.buildKeys);
  }

  /** The URL the first run writes. */
  function WrittenUrl(f: Files, m: Settings, d: Listing): Option<string> {
    if !m.sqlite || !m.consumes then None
    else match ChosenUrl(Old(f, m).url, DataDir(m, Old(f, m), d), Wanted(m.filename))
      case Err(_) => None
      case Ok(url) => Some(url)
  }

  /** The state after a regeneration that works. */
  function After(f: Files, m: Settings, d: Listing, example: Option<string>, jwt: string): Files
    requires UrlLines(m, Old(f, m), d).Ok?
  {
    Finished(f, m, UrlLines(m, Old(f, m), d).value, example, jwt)
  }

  lemma OldAfter(f: Files, m: Settings, d: Listing, example: Option<string>, jwt: string)
    requires UrlLines(m, Old(f, m), d).Ok? && OneLineEach(m)
    requires WrittenUrl(f, m, d).Some? ==> OneLine(WrittenUrl(f, m, d).value)
    ensures var url := WrittenUrl(f, m, d);
            Old(After(f, m, d, example, jwt), m) == NOTHING.(url := if url.Some? then Some(Trimmed(url.value)) else None)
  {
    NotReadAreQuiet(m);
    hide OneLine, OldEnvOf, NewEnv, WithSecret, Migrated, ChosenUrl, DataDir, Trimmed;
    hide NOT_READ_1, NOT_READ_2, Quiet, Classified;
    NewEnvParsed(m, UrlLines(m, Old(f, m), d).value, WrittenUrl(f, m, d));
  }

  lemma SecretStays(local: Option<string>, example: Option<string>, jwt: string, jwt': string)
    requires '\n' !in jwt
    ensures var l := WithSecret(local, example, jwt); WithSecret(l, example, jwt') == l
  {
    hide Keys, ValueIn, WantsSecret, WithoutNewlines, SECRET, GENERATED;
    var l := WithSecret(local, example, jwt);
    WithSecretValue(local, example, jwt, SECRET);
    KeysAreAssigned(TextOf(l), SECRET);
  }

  /** Regenerating again, whatever the data directory then holds, leaves .env.local alone. */
  lemma SecondRunLeavesLocalAlone(f: Files, m: Settings, d: Listing, d': Listing, example: Option<string>,
                                  jwt: string, jwt': string, s: Files)
    requires UrlLines(m, Old(f, m), d).Ok? && OneLineEach(m) && '\n' !in jwt
    requires WrittenUrl(f, m, d).Some? ==> OneLine(WrittenUrl(f, m, d).value)
    requires Stage(s, After(f, m, d, example, jwt), m, d', example, jwt')
    ensures s.local == After(f, m, d, example, jwt).local
  {
    OldAfter(f, m, d, example, jwt);
    SecretStays(Moved(f, m).local, example, jwt, jwt');
    hide OneLine, OldEnvOf, NewEnv, WithSecret, UrlLines, Trimmed, WrittenUrl;
    NothingMigrates(After(f, m, d, example, jwt).local);
    hide Migrated;
  }

  /** With the directory unchanged and a URL that names its file and does not end in a blank,
      regenerating again changes neither file. */
  lemma SecondRunChangesNothing(f: Files, m: Settings, d: Listing, example: Option<string>, jwt: string, jwt': string)
    requires UrlLines(m, Old(f, m), d).Ok? && OneLineEach(m) && '\n' !in jwt
    requires WrittenUrl(f, m, d).Some? ==> OneLine(WrittenUrl(f, m, d).value) && !EndsBlank(WrittenUrl(f, m, d).value)
    requires var c := ChosenFile(Old(f, m).url, DataDir(m, Old(f, m), d), Wanted(m.filename));
             c.Some? && c.value.1 ==> CanBeNamed(c.value.0, QueryOf(Old(f, m).url))
    ensures var g := After(f, m, d, example, jwt);
            && UrlLines(m, Old(g, m), DataDir(m, Old(f, m), d)).Ok?
            && forall s :: Stage(s, g, m, DataDir(m, Old(f, m), d), example, jwt') ==> s == g
  {
    var g, dir := After(f, m, d, example, jwt), DataDir(m, Old(f, m), d);
    OldAfter(f, m, d, example, jwt);
    if WrittenUrl(f, m, d).Some? {
      TrimmedIsPrefix(WrittenUrl(f, m, d).value);
      NextRunWritesTheSameUrl(Old(f, m).url, dir, Wanted(m.filename), Wanted(m.filename));
    }
    hide OneLine, OldEnvOf, NewEnv, WithSecret, Trimmed, Parse, ChosenUrl, ChosenFile, CanBeNamed, NOT_READ_1, NOT_READ_2, Migrated;
    assert UrlLines(m, Old(g, m), dir) == UrlLines(m, Old(f, m), d);
    forall s | Stage(s, g, m, dir, example, jwt') ensures s == g {
      SecondRunLeavesLocalAlone(f, m, d, dir, example, jwt, jwt', s);
    }
  }

  // ---- What regeneration loses ------------------------------------------------------------------------

  lemma WrittenAssignment(key: string, value: string)
    requires IsName(key)
    ensures Assigned(Line(key, value)) == Some((key, value))
  {
    var line := key + "=" + value;
    NameHasNoBlank(key);
    assert line[0] == key[0];
    assert line == key + ("" + ("=" + value));
    hide IsName, Assigned, IsBlank;
    assert SkipBlanks(line) == line;
    PlainAssignment(line, key, "", value);
  }

  /** A key assigned twice in the old .env comes out with the first value, not the last. */
  lemma RepeatedKeyTakesItsFirstValue(m: Settings, key: string, v1: string, v2: string)
    requires IsName(key) && Carried(m, key) && OneLine(v1) && OneLine(v2) && v1 != v2
    ensures var f := Files(Some(Line(key, v1) + "\n" + Line(key, v2) + "\n"), None);
            && IsBusiness(f, m, key) && !InLocal(f, key)
            && Effective(f, key) == Some(v2)
            && FirstValue(Old(f, m).business, key) == Some(v1)
  {
    var l1, l2 := Line(key, v1), Line(key, v2);
    AssignmentKind(key, v1, m.sqlite, m.buildKeys);
    AssignmentKind(key, v2, m.sqlite, m.buildKeys);
    AssignmentIsOneLine(key, v1);
    AssignmentIsOneLine(key, v2);
    WrittenAssignment(key, v1);
    WrittenAssignment(key, v2);
    OneLineHasNoNewline(l1);
    OneLineHasNoNewline(l2);
    NoKeysInNothing();
    EmptyAssignsNothing(key);
    hide IsName, OneLine, Assigned, Classified, Keys, SplitLines, Pieces, Line;
    TwoLinesParsed(l1, l2, m, key);
    TwoLinesRead(l1, l2, key);
  }

  lemma OneLineHasNoNewline(s: string)
    requires OneLine(s)
    ensures '\n' !in s
  {
    assert IsBreak('\n');
  }

  lemma TwoLinesParsed(l1: string, l2: string, m: Settings, key: string)
    requires OneLine(l1) && OneLine(l2)
    requires Classified(l1, m.sqlite, m.buildKeys) == Business(key) && Classified(l2, m.sqlite, m.buildKeys) == Business(key)
    ensures OldEnvOf(Some(l1 + "\n" + l2 + "\n"), m.sqlite, m.buildKeys).business == [(key, l1), (key, l2)]
  {
    hide OneLine, Classified, SplitLines;
    var lines := [l1, l2];
    assert lines[1..] == [l2] && lines[..1] == [l1] && [l1][..0] == [];
    SplitJoined(lines);
    assert Parsed([l1], m.sqlite, m.buildKeys).business == [(key, l1)];
    assert Parsed(lines, m.sqlite, m.buildKeys).business == [(key, l1)] + [(key, l2)];
    assert JoinedLines(lines) == l1 + "\n" + l2;
  }

  lemma TwoLinesRead(l1: string, l2: string, key: string)
    requires '\n' !in l1 && '\n' !in l2 && Assigns(l2, key)
    ensures ValueIn(l1 + "\n" + l2 + "\n", key) == Some(Assigned(l2).value.1)
  {
    hide Assigned, Pieces, Last;
    var text := l1 + "\n" + l2 + "\n";
    assert text == l1 + "\n" + (l2 + "\n" + "");
    PiecesJoin(l1, l2 + "\n" + "");
    PiecesJoin(l2, "");
    OnePiece(l1);
    OnePiece(l2);
    OnePiece("");
    EmptyAssignsNothing(key);
    LastAppends([l1], [l2] + [""], key);
    LastAppends([l2], [""], key);
    OneLast(l2, key);
  }

  /** Where DATABASE_URL is managed it is never moved. */
  lemma {:induction false} ManagedUrlIsNotBusiness(lines: seq<string>, extra: set<string>)
    ensures FirstValue(Parsed(lines, true, extra).business, "DATABASE_URL").None?
  {
    if lines != [] {
      var n := |lines| - 1;
      ManagedUrlIsNotBusiness(lines[..n], extra);
      var k := Classified(lines[n], true, extra);
      assert k.Business? ==> k.key != "DATABASE_URL";
      hide Classified, Assigned;
      if k.Business? {
        FirstOfMore(Parsed(lines[..n], true, extra).business, (k.key, lines[n]), "DATABASE_URL");
      }
    }
  }

  lemma OldUrlIsNotBusiness(f: Files, m: Settings)
    requires m.sqlite
    ensures FirstValue(Old(f, m).business, "DATABASE_URL").None?
  {
    if f.env.Some? {
      hide Parsed, FirstValue, SplitLines;
      ManagedUrlIsNotBusiness(SplitLines(f.env.value), m.buildKeys);
    }
  }

  /** Contrary to the comment in the source, when the application is not known to read
      DATABASE_URL the old value is not kept: nothing assigns it afterwards. */
  lemma UnreadUrlIsDropped(f: Files, m: Settings, d: Listing, example: Option<string>, jwt: string)
    requires m.sqlite && !m.consumes && OneLineEach(m) && '\n' !in jwt && !InLocal(f, "DATABASE_URL")
    ensures Effective(After(f, m, d, example, jwt), "DATABASE_URL").None?
  {
    var key := "DATABASE_URL";
    assert key != SECRET;
    var urlLines := [NOT_READ_1, NOT_READ_2];
    assert UrlLines(m, Old(f, m), d) == Ok(urlLines);
    OldUrlIsNotBusiness(f, m);
    OldEnvIsWellFiled(f.env, m.sqlite, m.buildKeys);
    hide OneLine, Migrated, WithSecret, NewEnv, Keys, FirstValue, SplitLines, Parsed, ValueIn, WantsSecret, WellFiled;
    hide SECRET, NOT_READ_1, NOT_READ_2;
    KeysAreAssigned(TextOf(f.local), key);
    MigratedValue(f.local, Old(f, m).business, key);
    WithSecretValue(Moved(f, m).local, example, jwt, key);
    NewEnvValue(f, m, d, key);
  }

  lemma EnvPieces(m: Settings, urlLines: seq<string>)
    ensures Pieces(NewEnv(m, urlLines)) == Pieces(JoinedLines(PlainLines(m) + urlLines)) + [""]
  {
    hide Pieces, PlainLines, JoinedLines;
    var j := JoinedLines(PlainLines(m) + urlLines);
    assert j + "\n" == j + "\n" + "";
    PiecesJoin(j, "");
    OnePiece("");
  }

  lemma LineValue(name: string, value: string, key: string)
    requires IsName(name)
    ensures Last([Line(name, value)], key) == if key == name then Some(value) else None
  {
    hide IsName, Assigned, Last;
    WrittenAssignment(name, value);
    OneLast(Line(name, value), key);
  }

  lemma CommentValue(line: string, key: string)
    requires line != "" && line[0] == '#'
    ensures Last([line], key).None?
  {
    hide Assigned, Last;
    HashAssignsNothing(line, key);
    OneLast(line, key);
  }

  lemma PlainLinesValue(m: Settings, key: string)
    ensures Last(PlainLines(m), key)
            == if key == "HOST_PORT" then Some(m.hostPort)
               else if key == "INTERNAL_PORT" then Some(m.internalPort)
               else if key == "MEMORY_LIMIT" then Some(m.memory)
               else if key == "CPU_LIMIT" then Some(m.cpus)
               else None
  {
    ManagedNames();
    HeaderIsOneLine();
    hide Last, Line, IsName, OneLine, HEADER;
    var host, internal := Line("HOST_PORT", m.hostPort), Line("INTERNAL_PORT", m.internalPort);
    var memory, cpus := Line("MEMORY_LIMIT", m.memory), Line("CPU_LIMIT", m.cpus);
    CommentValue(HEADER, key);
    LineValue("HOST_PORT", m.hostPort, key);
    LineValue("INTERNAL_PORT", m.internalPort, key);
    LineValue("MEMORY_LIMIT", m.memory, key);
    LineValue("CPU_LIMIT", m.cpus, key);
    LastAppends([HEADER], [host], key);
    LastAppends([HEADER] + [host], [internal], key);
    LastAppends([HEADER] + [host] + [internal], [memory], key);
    LastAppends([HEADER] + [host] + [internal] + [memory], [cpus], key);
    assert PlainLines(m) == [HEADER] + [host] + [internal] + [memory] + [cpus];
  }

  /** What the lines about DATABASE_URL assign. */
  lemma UrlLinesValue(f: Files, m: Settings, d: Listing, key: string)
    requires UrlLines(m, Old(f, m), d).Ok?
    ensures Last(UrlLines(m, Old(f, m), d).value, key) == if key == "DATABASE_URL" then WrittenUrl(f, m, d) else None
  {
    ManagedNames();
    NothingLast(key);
    NotReadIsOneLine1();
    NotReadIsOneLine2();
    hide Last, Line, IsName, OneLine, OldEnvOf, ChosenUrl, DataDir, NOT_READ_1, NOT_READ_2;
    CommentValue(NOT_READ_1, key);
    CommentValue(NOT_READ_2, key);
    LastAppends([NOT_READ_1], [NOT_READ_2], key);
    assert [NOT_READ_1] + [NOT_READ_2] == [NOT_READ_1, NOT_READ_2];
    if WrittenUrl(f, m, d).Some? {
      LineValue("DATABASE_URL", WrittenUrl(f, m, d).value, key);
    }
  }

  /** The regenerated .env assigns the four settings, the URL that was chosen, and nothing else. */
  lemma NewEnvValue(f: Files, m: Settings, d: Listing, key: string)
    requires UrlLines(m, Old(f, m), d).Ok? && OneLineEach(m)
    requires WrittenUrl(f, m, d).Some? ==> OneLine(WrittenUrl(f, m, d).value)
    ensures ValueIn(NewEnv(m, UrlLines(m, Old(f, m), d).value), key)
            == if key == "HOST_PORT" then Some(m.hostPort)
               else if key == "INTERNAL_PORT" then Some(m.internalPort)
               else if key == "MEMORY_LIMIT" then Some(m.memory)
               else if key == "CPU_LIMIT" then Some(m.cpus)
               else if key == "DATABASE_URL" then WrittenUrl(f, m, d)
               else None
  {
    hide *;
    var urlLines := UrlLines(m, Old(f, m), d).value;
    PlainLinesValue(m, key);
    UrlLinesValue(f, m, d, key);
    LastAppends(PlainLines(m), urlLines, key);
    UrlLinesAreOneLine(f, m, d);
    ValueOfNewEnv(m, urlLines, key);
  }

  lemma UrlLinesAreOneLine(f: Files, m: Settings, d: Listing)
    requires UrlLines(m, Old(f, m), d).Ok?
    requires WrittenUrl(f, m, d).Some? ==> OneLine(WrittenUrl(f, m, d).value)
    ensures forall k :: 0 <= k < |UrlLines(m, Old(f, m), d).value| ==> OneLine(UrlLines(m, Old(f, m), d).value[k])
  {
    NotReadIsOneLine1();
    NotReadIsOneLine2();
    hide OneLine, OldEnvOf, ChosenUrl, DataDir, NOT_READ_1, NOT_READ_2, Line;
    if WrittenUrl(f, m, d).Some? {
      UrlIsOneLine(WrittenUrl(f, m, d).value);
    }
  }

  lemma ValueOfNewEnv(m: Settings, urlLines: seq<string>, key: string)
    requires OneLineEach(m) && forall k :: 0 <= k < |urlLines| ==> OneLine(urlLines[k])
    ensures ValueIn(NewEnv(m, urlLines), key) == Last(PlainLines(m) + urlLines, key)
  {
    hide *;
    FiveLines(m);
    var lines := PlainLines(m) + urlLines;
    forall k | 0 <= k < |lines| ensures '\n' !in lines[k] {
      if k < 5 { PlainLinesAreQuiet(m, k); }
      OneLineHasNoNewline(lines[k]);
    }
    JoinedPieces(lines);
    EnvPieces(m, urlLines);
    EmptyAssignsNothing(key);
    LastAppends(lines, [""], key);
    ValueIsLast(NewEnv(m, urlLines), key);
  }

  // ---- What regeneration keeps, exactly ----------------------------------------------------------------

  /** A key that is to be carried over keeps its value exactly when .env.local has it or a plain or
      exported line assigns it. */
  lemma KeptIff(f: Files, m: Settings, d: Listing, example: Option<string>, jwt: string, key: string)
    requires f.env.Some? && NoDuplicates(f.env.value) && ValueIn(f.env.value, key).Some?
    requires key !in {"HOST_PORT", "INTERNAL_PORT", "MEMORY_LIMIT", "CPU_LIMIT"}
    requires if key == "DATABASE_URL" then !m.sqlite else key !in m.buildKeys
    requires UrlLines(m, Old(f, m), d).Ok? && OneLineEach(m) && '\n' !in jwt
    requires WrittenUrl(f, m, d).Some? ==> OneLine(WrittenUrl(f, m, d).value)
    ensures (forall s :: Stage(s, f, m, d, example, jwt) ==> Effective(s, key) == Effective(f, key))
       <==> ValueIn(TextOf(f.local), key).Some? || ReadablyAssigned(f.env.value, key)
  {
    KeysAreAssigned(TextOf(f.local), key);
    assert InLocal(f, key) <==> ValueIn(TextOf(f.local), key).Some?;
    hide *;
    if ValueIn(TextOf(f.local), key).Some? {
      LocalValuesSurviveEveryCrash(f, m, d, example, jwt, key);
    } else if ReadablyAssigned(f.env.value, key) {
      forall s | Stage(s, f, m, d, example, jwt) ensures Effective(s, key) == Effective(f, key) {
        EveryOtherKeyKeepsItsValue(f, m, d, example, jwt, key, s);
      }
    } else {
      LostWhenUnread(f, m, d, example, jwt, key);
    }
  }

  lemma LostWhenUnread(f: Files, m: Settings, d: Listing, example: Option<string>, jwt: string, key: string)
    requires f.env.Some? && NoDuplicates(f.env.value) && ValueIn(f.env.value, key).Some?
    requires Carried(m, key) && !InLocal(f, key) && !ReadablyAssigned(f.env.value, key)
    requires UrlLines(m, Old(f, m), d).Ok? && OneLineEach(m)
    requires WrittenUrl(f, m, d).Some? ==> OneLine(WrittenUrl(f, m, d).value)
    ensures exists s :: Stage(s, f, m, d, example, jwt) && Effective(s, key) != Effective(f, key)
  {
    ValueIsName(f.env.value, key);
    hide ValueIn, ReadablyAssigned, IsBusiness, IsName, IsBreak, Assigned, Pieces, UrlLines, OneLine, NewEnv, Keys, Migrated;
    hide OldEnvOf, FirstValue;
    BusinessIff(f, m, key);
    MovedValue(f, m, key);
    NewEnvValue(f, m, d, key);
    KeysAreAssigned(TextOf(f.local), key);
    var s := Rewritten(f, m, UrlLines(m, Old(f, m), d).value);
    assert Stage(s, f, m, d, example, jwt) && Effective(s, key).None?;
  }

  /** What the migration leaves a key with. */
  lemma MovedValue(f: Files, m: Settings, key: string)
    ensures ValueIn(TextOf(Moved(f, m).local), key)
            == if InLocal(f, key) then ValueIn(TextOf(f.local), key) else FirstValue(Old(f, m).business, key)
    ensures IsBusiness(f, m, key) <==> FirstValue(Old(f, m).business, key).Some?
  {
    hide OldEnvOf, Migrated, ValueIn, FirstValue, Keys, WellFiled;
    OldEnvIsWellFiled(f.env, m.sqlite, m.buildKeys);
    MigratedValue(f.local, Old(f, m).business, key);
  }

  /** The secret the application is started with afterwards: the local one, or else the one that
      .env assigned, and a new one only when there was neither and the example asks for one. */
  lemma SecretAfterwards(f: Files, m: Settings, d: Listing, example: Option<string>, jwt: string)
    requires f.env.Some? ==> NoDuplicates(f.env.value)
    requires "JWT_SECRET" !in m.buildKeys && '\n' !in jwt
    requires UrlLines(m, Old(f, m), d).Ok? && OneLineEach(m)
    requires WrittenUrl(f, m, d).Some? ==> OneLine(WrittenUrl(f, m, d).value)
    ensures Effective(After(f, m, d, example, jwt), "JWT_SECRET")
            == if ValueIn(TextOf(f.local), "JWT_SECRET").Some? then ValueIn(TextOf(f.local), "JWT_SECRET")
               else if f.env.Some? && ReadablyAssigned(f.env.value, "JWT_SECRET") then ValueIn(f.env.value, "JWT_SECRET")
               else if AsksForSecret(example) then Some(jwt)
               else None
  {
    var key := "JWT_SECRET";
    assert key == SECRET;
    assert IsName(key) && Carried(m, key);
    hide ValueIn, ReadablyAssigned, IsName, IsBreak, Assigned, Pieces, UrlLines, OneLine, NewEnv, Keys, Migrated;
    hide OldEnvOf, FirstValue, WantsSecret, AsksForSecret, WithSecret, Carried;
    if f.env.Some? {
      BusinessIff(f, m, key);
      if IsBusiness(f, m, key) { FirstIsLast(f, m, key); }
      if ReadablyAssigned(f.env.value, key) { ReadableHasValue(f.env.value, key); }
    } else {
      NoBusiness(f, m, key);
    }
    MovedValue(f, m, key);
    NewEnvValue(f, m, d, key);
    KeysAreAssigned(TextOf(f.local), key);
    KeysAreAssigned(TextOf(Moved(f, m).local), key);
    WithSecretValue(Moved(f, m).local, example, jwt, key);
    WantsSecretIff(example);
  }

  lemma NoBusiness(f: Files, m: Settings, key: string)
    requires f.env.None?
    ensures !IsBusiness(f, m, key)
  {
  }

  // ---- The URL, from the old file and the data directory -----------------------------------------------

  lemma UrlLineIsPlain(line: string, extra: set<string>)
    ensures Classified(line, true, extra).ManagedUrl? ==> Plainly(line, "DATABASE_URL")
  {
    if Classified(line, true, extra).ManagedUrl? {
      var key := ReadIsWritten(line, true, extra);
      var value :| WrittenAs(line, key, value);
      hide Classified, IsName, WrittenAs;
      WrittenIsFiled(line, key, value, true, extra);
    }
  }

  /** The last of the lines that give it gives the URL. */
  lemma {:induction false} ParsedUrl(lines: seq<string>, extra: set<string>, i: nat, url: string)
    requires i < |lines| && Classified(lines[i], true, extra) == ManagedUrl(url)
    requires forall j :: i < j < |lines| ==> !Classified(lines[j], true, extra).ManagedUrl?
    ensures Parsed(lines, true, extra).url == Some(url)
    decreases |lines|
  {
    hide Classified;
    if i < |lines| - 1 {
      ParsedUrl(lines[..|lines| - 1], extra, i, url);
    }
  }

  lemma {:induction false} NoParsedUrl(lines: seq<string>, extra: set<string>)
    requires forall j :: 0 <= j < |lines| ==> !Classified(lines[j], true, extra).ManagedUrl?
    ensures Parsed(lines, true, extra).url == None
    decreases |lines|
  {
    hide Classified;
    if lines != [] {
      NoParsedUrl(lines[..|lines| - 1], extra);
    }
  }

  predicate NewlinesOnly(text: string) {
    forall k :: 0 <= k < |text| && IsBreak(text[k]) ==> text[k] == '\n'
  }

  /** The old URL is what the last plain or exported line gives, without the blanks at its end. */
  lemma OldUrlIs(f: Files, m: Settings, i: nat, value: string)
    requires m.sqlite && f.env.Some? && NewlinesOnly(f.env.value)
    requires var pieces := Pieces(f.env.value);
             && i < |pieces| && WrittenAs(pieces[i], "DATABASE_URL", value)
             && forall j :: i < j < |pieces| ==> !Plainly(pieces[j], "DATABASE_URL")
    ensures Old(f, m).url == Some(Trimmed(value))
  {
    ManagedNames();
    var text := f.env.value;
    SplitIsPieces(text);
    var lines, pieces := SplitLines(text), Pieces(text);
    hide IsBreak, NewlinesOnly, SplitLines, Pieces, Parsed, Classified, WrittenAs, IsName;
    EmptyIsNotPlain("DATABASE_URL");
    assert Plainly(pieces[i], "DATABASE_URL");
    assert i < |lines| && lines[i] == pieces[i];
    WrittenIsFiled(lines[i], "DATABASE_URL", value, true, m.buildKeys);
    forall j | i < j < |lines| ensures !Classified(lines[j], true, m.buildKeys).ManagedUrl? {
      assert lines[j] == pieces[j];
      UrlLineIsPlain(lines[j], m.buildKeys);
    }
    ParsedUrl(lines, m.buildKeys, i, Trimmed(value));
  }

  lemma NoOldUrl(f: Files, m: Settings)
    requires m.sqlite && (f.env.Some? ==> NewlinesOnly(f.env.value) && !ReadablyAssigned(f.env.value, "DATABASE_URL"))
    ensures Old(f, m).url == None
  {
    if f.env.Some? {
      var text := f.env.value;
      SplitIsPieces(text);
      var lines, pieces := SplitLines(text), Pieces(text);
      hide IsBreak, NewlinesOnly, SplitLines, Pieces, Parsed, Classified, Plainly;
      forall j | 0 <= j < |lines| ensures !Classified(lines[j], true, m.buildKeys).ManagedUrl? {
        assert lines[j] == pieces[j];
        UrlLineIsPlain(lines[j], m.buildKeys);
      }
      NoParsedUrl(lines, m.buildKeys);
    }
  }

  /** Two entries of the directory are databases with data. */
  ghost predicate TwoDatabases(d: Listing) {
    exists j, k :: 0 <= j < k < |d| && DatabaseAt(d, j) && DatabaseAt(d, k)
  }

  /** A URL that names no file of the data directory stays as it was, whatever is there. */
  lemma HandMadeUrlIsKept(f: Files, m: Settings, d: Listing, url: string)
    requires m.sqlite && m.consumes && Old(f, m).url == Some(url) && url != ""
    requires Parse(url).Some? ==> Parse(url).value.dir != "/app/data"
    ensures UrlLines(m, Old(f, m), d).Ok? && WrittenUrl(f, m, d) == Some(url)
  {
    hide OldEnvOf, Parse;
  }

  /** A URL that names a file of the data directory stays when the file has data, or no database
      there has; else the one that has data is named; and with two the regeneration is refused. */
  lemma ManagedUrlAfterwards(f: Files, m: Settings, d: Listing, url: string, name: string, query: string)
    requires m.sqlite && m.consumes && Old(f, m).url == Some(url) && url != ""
    requires Parse(url) == Some(SqliteUrl("/app/data", name, query))
    ensures UrlLines(m, Old(f, m), d).Err? <==> !NonemptyFile(d, name) && TwoDatabases(d)
    ensures NonemptyFile(d, name) || NoDatabase(d) ==> WrittenUrl(f, m, d) == Some(url)
    ensures !NonemptyFile(d, name) && !TwoDatabases(d) ==>
              forall k :: 0 <= k < |d| && DatabaseAt(d, k) ==>
                WrittenUrl(f, m, d) == Some("sqlite:////app/data/" + d[k].name + (if query == "" then "" else "?" + query))
  {
    ResolvesIff(d, name);
    NonemptyIsNamed(d, name);
    hide OldEnvOf, Parse, Resolve, NonemptyFile, DatabaseAt;
  }

  lemma NonemptyIsNamed(d: Listing, name: string)
    ensures !NonemptyFile(d, name) ==> forall k :: 0 <= k < |d| && DatabaseAt(d, k) ==> d[k].name != name
  {
    hide SqliteName;
  }

  /** Without a URL the file found in the source is copied, unless one of its name is there, and
      named; or else the one database with data; and with two the regeneration is refused. */
  lemma FirstUrlAfterwards(f: Files, m: Settings, d: Listing)
    requires m.sqlite && m.consumes && (Old(f, m).url == None || Old(f, m).url == Some(""))
    ensures var name := Wanted(m.filename);
            var there := AfterCopy(d, name, m.source);
            && (UrlLines(m, Old(f, m), d).Err? <==> !NonemptyFile(there, name) && TwoDatabases(there))
            && (NonemptyFile(there, name) || NoDatabase(there) ==> WrittenUrl(f, m, d) == Some("sqlite:////app/data/" + name))
            && (!NonemptyFile(there, name) && !TwoDatabases(there) ==>
                  forall k :: 0 <= k < |there| && DatabaseAt(there, k) ==>
                    WrittenUrl(f, m, d) == Some("sqlite:////app/data/" + there[k].name))
  {
    var name := Wanted(m.filename);
    var there := AfterCopy(d, name, m.source);
    ResolvesIff(there, name);
    hide OldEnvOf, Parse, Resolve, NonemptyFile, DatabaseAt, Wanted, AfterCopy;
    forall file ensures Url(file, "") == "sqlite:////app/data/" + file {
      NoQuery(file);
    }
  }

  lemma NoQuery(file: string)
    ensures Url(file, "") == "sqlite:////app/data/" + file
  {
    assert PREFIX + file + "" == PREFIX + file;
  }
}
