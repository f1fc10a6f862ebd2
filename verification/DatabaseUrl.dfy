/**
The DATABASE_URL of a generated .env: reading a SQLite URL, reconciling the file it names
with the data directory, and choosing the URL to write.
*/
module DatabaseUrl {
  import opened Wrappers
  import opened Text
  import opened Urls

  const APP_DATA := "/app/data"

  const DEFAULT_NAME := "app.sqlite"

  // ---- Reading a URL -----------------------------------------------------------------------

  /** _strip_env_quotes */
  function Unquoted(value: string): string {
    var v := Stripped(value);
    if |v| >= 2 && v[0] == v[|v| - 1] && v[0] in "'\"" then Stripped(v[1..|v| - 1]) else v
  }

  datatype SqliteUrl = SqliteUrl(dir: string, name: string, query: string)

  /** The directory and the name in the path of a URL. */
  function PathPart(path: string, query: string): Option<SqliteUrl> {
    if path == "" || path[0] != '/' then None else
    var file := path[1..];
    if file == "" || file[0] == ':' then None else
    var n := LastPart(file);
    if n == |file| then None
    else Some(SqliteUrl(if n == 0 then "" else file[..n - 1], file[n..], query))
  }

  /** The file of a URL, given what follows its scheme and its empty authority. */
  function FilePart(rest: string): Option<SqliteUrl> {
    var (path, query) := Cut(rest);
    PathPart(path, query)
  }

  /** parse_sqlite_url */
  function Parse(value: string): Option<SqliteUrl> {
    var url := Cleaned(Uncontrolled(Unquoted(value)));
    var colon := Find(url, ":");
    if colon == |url| || Lower(url[..colon]) != "sqlite" then None else
    var rest := url[colon + 1..];
    if !StartsWith(rest, "//") then FilePart(rest)
    else if Find(rest[2..], "/?#") > 0 then None
    else FilePart(rest[2..])
  }

  // ---- What is read, written out -----------------------------------------------------------------

  /** The value stands between two quotes of the same kind. */
  predicate Quoted(v: string) {
    |v| >= 2 && v[|v| - 1] == v[0] && (v[0] == '"' || v[0] == '\'')
  }

  predicate Bare(v: string) {
    v == "" || (!IsBlank(v[0]) && !IsBlank(v[|v| - 1]))
  }

  lemma BareIsStripped(v: string)
    requires Bare(v)
    ensures Stripped(v) == v
  {
  }

  /** One pair of quotes is taken off, and nothing else. */
  lemma UnquotedIs(v: string, q: char)
    requires Bare(v) && (q == '"' || q == '\'')
    ensures Unquoted([q] + v + [q]) == v
    ensures !Quoted(v) ==> Unquoted(v) == v
  {
    var whole := [q] + v + [q];
    assert !IsBlank(q);
    assert whole[1..|whole| - 1] == v;
    hide IsBlank, Stripped;
    BareIsStripped(v);
    BareIsStripped(whole);
  }

  /** The text of a URL that nothing is dropped from. */
  predicate Tidy(url: string) {
    url != "" && url[0] > ' ' && url[0] !in "'\"" && Bare(url) && Lacks(url, DROPPED)
  }

  lemma TidyIsKept(url: string)
    requires Tidy(url)
    ensures Cleaned(Uncontrolled(Unquoted(url))) == url
  {
    hide Bare, Unquoted, Cleaned;
    UnquotedIs(url, '"');
    CleanedLacks(url);
  }

  /** The word in any mix of cases. */
  predicate AnyCase(s: string, word: string) {
    |s| == |word| && forall k :: 0 <= k < |word| ==> SameLetter(s[k], word[k])
  }

  lemma LowerIs(s: string)
    ensures Lower(s) == "sqlite" <==> AnyCase(s, "sqlite")
  {
    LowerEnds(s, "sqlite");
    hide SameLetter;
    assert |s| == 6 ==> Lower(s)[0..] == Lower(s);
  }

  /** Reading scheme://authority/dir/name?query: a SQLite file when the scheme is sqlite, there is
      no authority, and a file is named that does not start with a colon. */
  lemma ParseIs(scheme: string, authority: string, dir: string, name: string, query: string)
    requires Lacks(scheme, ":") && Lacks(authority, "/?#") && Lacks(dir, "?#") && Lacks(name, "/?#") && Lacks(query, "#")
    requires dir == "" || dir[|dir| - 1] == '/'
    requires Tidy(scheme + "://" + authority + "/" + dir + name + Suffix(query))
    ensures Parse(scheme + "://" + authority + "/" + dir + name + Suffix(query))
            == if AnyCase(scheme, "sqlite") && authority == "" && name != "" && (dir + name)[0] != ':'
               then Some(SqliteUrl(if dir == "" then "" else dir[..|dir| - 1], name, query))
               else None
  {
    hide *;
    var rest := "/" + (dir + name) + Suffix(query);
    assert scheme + ":" + ("//" + (authority + rest)) == scheme + "://" + authority + "/" + dir + name + Suffix(query);
    ParseParts(scheme, authority, rest);
    FilePartIs(dir, name, query);
  }

  lemma ParseParts(scheme: string, authority: string, rest: string)
    requires Lacks(scheme, ":") && Lacks(authority, "/?#") && rest != "" && rest[0] == '/'
    requires Tidy(scheme + ":" + ("//" + (authority + rest)))
    ensures Parse(scheme + ":" + ("//" + (authority + rest)))
            == if AnyCase(scheme, "sqlite") && authority == "" then FilePart(rest) else None
  {
    hide *;
    var u := authority + rest;
    AfterScheme(scheme, "//" + u);
    AfterSlashes(u);
    StopsAt(authority, rest, "/?#");
    assert authority == "" ==> u == rest;
  }

  lemma StopsAt(p: string, u: string, stops: string)
    requires Lacks(p, stops) && u != "" && u[0] in stops
    ensures Find(p + u, stops) == |p|
  {
    FindIs(p + u, stops, |p|);
  }

  lemma AfterScheme(scheme: string, rest: string)
    requires Lacks(scheme, ":") && Tidy(scheme + ":" + rest)
    ensures Parse(scheme + ":" + rest)
            == if !AnyCase(scheme, "sqlite") then None
               else if !StartsWith(rest, "//") then FilePart(rest)
               else if Find(rest[2..], "/?#") > 0 then None
               else FilePart(rest[2..])
  {
    var url := scheme + ":" + rest;
    TidyIsKept(url);
    LowerIs(scheme);
    StopsAt(scheme, ":" + rest, ":");
    hide Tidy, Unquoted, Uncontrolled, Cleaned, FilePart, Lower, AnyCase, Find, StartsWith;
    assert url == scheme + (":" + rest);
    assert url[..|scheme|] == scheme && url[|scheme| + 1..] == rest;
  }

  lemma AfterSlashes(u: string)
    ensures StartsWith("//" + u, "//") && ("//" + u)[2..] == u
  {
  }

  lemma FilePartIs(dir: string, name: string, query: string)
    requires Lacks(dir, "?#") && Lacks(name, "/?#") && Lacks(query, "#")
    requires dir == "" || dir[|dir| - 1] == '/'
    ensures FilePart("/" + (dir + name) + Suffix(query))
            == if name != "" && (dir + name)[0] != ':'
               then Some(SqliteUrl(if dir == "" then "" else dir[..|dir| - 1], name, query))
               else None
  {
    assert Lacks("/" + (dir + name), "?#") && Lacks(name, "/");
    hide Cut, Lacks, Suffix, PathPart;
    CutIs("/" + (dir + name), query);
    PathIs(dir, name, query);
  }

  lemma PathIs(dir: string, name: string, query: string)
    requires Lacks(name, "/") && (dir == "" || dir[|dir| - 1] == '/')
    ensures PathPart("/" + (dir + name), query)
            == if name != "" && (dir + name)[0] != ':'
               then Some(SqliteUrl(if dir == "" then "" else dir[..|dir| - 1], name, query))
               else None
  {
    LastPartIs(dir, name);
    hide LastPart, Lacks;
    var file := dir + name;
    assert ("/" + file)[1..] == file && file[|dir|..] == name;
    assert dir != "" ==> file[..|dir| - 1] == dir[..|dir| - 1];
  }

  lemma LastPartIs(dir: string, name: string)
    requires Lacks(name, "/") && (dir == "" || dir[|dir| - 1] == '/')
    ensures LastPart(dir + name) == |dir|
  {
    hide LastPart, Lacks;
    NoSlash(name);
    if dir == "" {
      assert dir + name == name;
    } else {
      LastPartAfter(dir, name);
    }
  }

  /** A URL whose path does not start with a slash names no file. */
  lemma NoPathNoFile(scheme: string, rest: string)
    requires Lacks(scheme, ":") && Tidy(scheme + ":" + rest) && (rest == "" || rest[0] != '/')
    ensures Parse(scheme + ":" + rest).None?
  {
    AfterScheme(scheme, rest);
    assert !StartsWith(rest, "//") by { if |rest| >= 2 { assert rest[..2][0] == rest[0]; } }
    CutIsFront(rest);
    hide Cut, Find, Parse, Tidy, Lacks;
  }

  lemma CutIsFront(u: string)
    ensures var path := Cut(u).0; path == "" || (u != "" && path[0] == u[0])
  {
  }

  // ---- Writing one and reading it back --------------------------------------------------------

  const PREFIX := "sqlite:////app/data/"

  /** The managed form, sqlite:////app/data/<name>[?<query>]. */
  function Url(name: string, query: string): string {
    PREFIX + name + Suffix(query)
  }

  predicate PlainName(name: string) {
    name != "" && Lacks(name, "/?#\t\r\n")
  }

  predicate PlainQuery(query: string) {
    Lacks(query, "#\t\r\n")
  }

  lemma PrefixIsPlain()
    ensures Cleaned(PREFIX) == PREFIX
  {
    assert Lacks(PREFIX, DROPPED) by {
      hide *;
      assert forall k :: 0 <= k < |PREFIX| ==> PREFIX[k] >= '/';
    }
    hide Cleaned;
    CleanedLacks(PREFIX);
  }

  lemma PrefixIsKept(t: string)
    ensures Cleaned(Uncontrolled(Unquoted(PREFIX + t))) == PREFIX + Cleaned(Trimmed(t))
  {
    var v := PREFIX + Trimmed(t);
    assert Stripped(PREFIX + t) == v by {
      assert !IsBlank('s') && !IsBlank('/');
      hide Stripped, Trimmed, IsBlank;
      StrippedAfter(PREFIX, t);
    }
    hide Stripped, Trimmed, Cleaned;
    assert v[0] == 's';
    assert Unquoted(PREFIX + t) == v && Uncontrolled(v) == v;
    CleanedAppends(PREFIX, Trimmed(t));
    PrefixIsPlain();
  }

  /** After the managed prefix, reading is reading the file part of the rest. */
  lemma ParseAfterPrefix(t: string)
    ensures Parse(PREFIX + t) == FilePart("//app/data/" + Cleaned(Trimmed(t)))
  {
    PrefixIsKept(t);
    hide Unquoted, Uncontrolled, Cleaned, Trimmed, FilePart, Find;
    var u := Cleaned(Trimmed(t));
    var url := PREFIX + u;
    FindIs(url, ":", 6);
    assert Lower(url[..6]) == "sqlite" by {
      assert url[..6] == "sqlite";
    }
    assert url[7..] == "//" + ("//app/data/" + u);
    FindIs("//app/data/" + u, "/?#", 0);
    assert ("//" + ("//app/data/" + u))[2..] == "//app/data/" + u;
  }

  /** The path of a file in `dir` gives the directory back exactly when nothing after it is
      another directory. */
  lemma PathUnder(dir: string, path: string, query: string)
    requires dir != "" && dir[0] == '/'
    ensures Lacks(path, "/") && path != "" ==> PathPart("/" + (dir + "/" + path), query) == Some(SqliteUrl(dir, path, query))
    ensures !Lacks(path, "/") || path == "" ==>
              var r := PathPart("/" + (dir + "/" + path), query); r.None? || |r.value.dir| > |dir|
  {
    var file := dir + "/" + path;
    LastPartAfter(dir + "/", path);
    NoSlash(path);
    hide LastPart, Lacks;
    assert file[0] == '/';
    PathOf(file, query);
    hide PathPart;
    BothParts(dir, path);
  }

  lemma PathOf(file: string, query: string)
    requires file != "" && file[0] == '/'
    ensures var r := PathPart("/" + file, query);
            var n := LastPart(file);
            if n == |file| then r.None? else r == Some(SqliteUrl(if n == 0 then "" else file[..n - 1], file[n..], query))
  {
    hide LastPart;
    assert ("/" + file)[1..] == file;
  }

  lemma BothParts(dir: string, path: string)
    ensures (dir + "/" + path)[..|dir|] == dir && (dir + "/" + path)[|dir| + 1..] == path
  {
  }

  /** A URL with the managed prefix names a file of the data directory exactly when no slash
      follows the prefix. */
  lemma ParsePrefixed(t: string)
    ensures var (path, query) := Cut(Cleaned(Trimmed(t)));
            if Lacks(path, "/") && path != "" then Parse(PREFIX + t) == Some(SqliteUrl(APP_DATA, path, query))
            else Parse(PREFIX + t).None? || Parse(PREFIX + t).value.dir != APP_DATA
  {
    ParseAfterPrefix(t);
    var u := Cleaned(Trimmed(t));
    hide Cleaned, Trimmed, Parse, Cut, PathPart;
    assert Lacks("//app/data/", "#") && Lacks("//app/data/", "?");
    CutAfter("//app/data/", u);
    var (path, query) := Cut(u);
    assert "//app/data/" + path == "/" + (APP_DATA + "/" + path);
    PathUnder(APP_DATA, path, query);
  }

  /** A written URL reads back as its name and query exactly when neither has a character
      that ends it and the line does not end in a blank. */
  lemma WrittenUrlReadsBack(name: string, query: string)
    ensures Parse(Url(name, query)) == Some(SqliteUrl(APP_DATA, name, query))
       <==> PlainName(name) && PlainQuery(query) && !EndsBlank(name + Suffix(query))
  {
    if Parse(Url(name, query)) == Some(SqliteUrl(APP_DATA, name, query)) {
      hide Parse;
      ReadBackIsPlain(name, query);
    }
    if PlainName(name) && PlainQuery(query) && !EndsBlank(name + Suffix(query)) {
      hide Parse;
      PlainReadsBack(name, query);
    }
  }

  lemma PlainReadsBack(name: string, query: string)
    requires PlainName(name) && PlainQuery(query) && !EndsBlank(name + Suffix(query))
    ensures Parse(Url(name, query)) == Some(SqliteUrl(APP_DATA, name, query))
  {
    var t := name + Suffix(query);
    assert Url(name, query) == PREFIX + t;
    TrimmedIsPrefix(t);
    assert Lacks(t, DROPPED);
    CleanedLacks(t);
    CutIs(name, query);
    hide Parse, Cut, Trimmed, Cleaned, IsBlank;
    ParsePrefixed(t);
  }

  lemma ReadBackIsPlain(name: string, query: string)
    requires Parse(Url(name, query)) == Some(SqliteUrl(APP_DATA, name, query))
    ensures PlainName(name) && PlainQuery(query) && !EndsBlank(name + Suffix(query))
  {
    hide Parse, Cut, Trimmed, Cleaned, IsBlank;
    var t := name + Suffix(query);
    assert Url(name, query) == PREFIX + t;
    ParsePrefixed(t);
    var u := Cleaned(Trimmed(t));
    var (path, q) := Cut(u);
    assert path == name && q == query;
    TrimmedIsPrefix(t);
    CleanedLacks(Trimmed(t));
    CutIsShorter(u);
  }

  // ---- Reconciling the name with the data directory ------------------------------------------

  /** A regular file with its size, None when it cannot be told, or anything else. */
  datatype Entry = File(size: Option<nat>) | Other

  datatype Dirent = Dirent(name: string, entry: Entry)

  type Listing = seq<Dirent>

  predicate Full(e: Entry) {
    e.File? && e.size.Some? && e.size.value > 0
  }

  predicate HasData(d: Listing, name: string) {
    exists k :: 0 <= k < |d| && d[k].name == name && Full(d[k].entry)
  }

  /** is_os_metadata_name */
  predicate IsMetadata(name: string) {
    name == ".DS_Store" || StartsWith(name, "._")
  }

  predicate IsDatabaseName(name: string) {
    var lower := Lower(name);
    && !IsMetadata(name)
    && !EndsWith(lower, "-wal") && !EndsWith(lower, "-shm")
    && (EndsWith(lower, ".db") || EndsWith(lower, ".sqlite") || EndsWith(lower, ".sqlite3"))
  }

  /** The names of the non-empty SQLite files, in the order listed. */
  function Existing(d: Listing): seq<string> {
    if d == [] then [] else
    var last := d[|d| - 1];
    Existing(d[..|d| - 1]) + if IsDatabaseName(last.name) && Full(last.entry) then [last.name] else []
  }

  /** _scan_existing_db_files over the sorted listing. */
  method ScanExisting(d: Listing) returns (names: seq<string>)
    ensures names == Existing(d)
    ensures forall n :: n in names <==> NonemptyFile(d, n) && SqliteName(n)
  {
    forall n ensures n in Existing(d) <==> NonemptyFile(d, n) && SqliteName(n) {
      ScanListsIff(d, n);
    }
    hide NonemptyFile, SqliteName;
    names := [];
    for i := 0 to |d|
      invariant names == Existing(d[..i])
    {
      assert d[..i + 1][..i] == d[..i];
      if IsDatabaseName(d[i].name) && Full(d[i].entry) {
        names := names + [d[i].name];
      }
    }
    assert d[..|d|] == d;
  }

  lemma HasDataAppends(d: Listing, name: string)
    requires d != []
    ensures var last := d[|d| - 1];
            HasData(d, name) <==> HasData(d[..|d| - 1], name) || (last.name == name && Full(last.entry))
  {
    hide Full;
    var n := |d| - 1;
    if k :| 0 <= k < |d| && d[k].name == name && Full(d[k].entry) {
      if k < n { assert d[..n][k] == d[k]; }
    }
  }

  lemma {:induction false} ExistingHasData(d: Listing, name: string)
    ensures name in Existing(d) <==> IsDatabaseName(name) && HasData(d, name)
  {
    hide IsDatabaseName, Full, HasData;
    if d == [] {
      NothingHasData(name);
    } else {
      ExistingHasData(d[..|d| - 1], name);
      HasDataAppends(d, name);
    }
  }

  lemma NothingHasData(name: string)
    ensures !HasData([], name)
  {
  }

  function Without(names: seq<string>, name: string): (r: seq<string>)
    ensures forall n :: n in r <==> n in names && n != name
    ensures r == [] && name !in names ==> names == []
  {
    if names == [] then [] else (if names[0] == name then [] else [names[0]]) + Without(names[1..], name)
  }

  /** _resolve_db_filename_from_data_dir; an error carries the files it will not choose among. */
  function Resolve(d: Listing, name: string): Result<string, seq<string>> {
    if HasData(d, name) then Ok(name) else
    var others := Without(Existing(d), name);
    if |others| == 1 then Ok(others[0])
    else if |others| > 1 then Err(others)
    else Ok(name)
  }

  // ---- What the reconciliation promises, written out ---------------------------------------

  /** The name ends in the suffix, in any mix of cases. */
  predicate EndsAnyCase(name: string, suffix: string) {
    && |suffix| <= |name|
    && forall k :: 0 <= k < |suffix| ==> SameLetter(name[|name| - |suffix| + k], suffix[k])
  }

  predicate SameLetter(c: char, small: char) {
    c == small || ('a' <= small <= 'z' && 'A' <= c <= 'Z' && c - 'A' == small - 'a')
  }

  /** A name of the data directory under which a SQLite database is looked for. */
  predicate SqliteName(name: string) {
    && name != ".DS_Store" && !(|name| >= 2 && name[0] == '.' && name[1] == '_')
    && (EndsAnyCase(name, ".db") || EndsAnyCase(name, ".sqlite") || EndsAnyCase(name, ".sqlite3"))
  }

  /** Entry `k` is a regular file that is not empty. */
  predicate Nonempty(d: Listing, k: nat)
    requires k < |d|
  {
    match d[k].entry
    case File(Some(size)) => size > 0
    case _ => false
  }

  ghost predicate NonemptyFile(d: Listing, name: string) {
    exists k :: 0 <= k < |d| && d[k].name == name && Nonempty(d, k)
  }

  /** Entry `k` is a SQLite database with something in it. */
  predicate DatabaseAt(d: Listing, k: nat)
    requires k < |d|
  {
    Nonempty(d, k) && SqliteName(d[k].name)
  }

  ghost predicate NoDatabase(d: Listing) {
    forall k :: 0 <= k < |d| ==> !DatabaseAt(d, k)
  }

  lemma LowerEnds(name: string, suffix: string)
    requires forall k :: 0 <= k < |suffix| ==> !('A' <= suffix[k] <= 'Z')
    ensures EndsWith(Lower(name), suffix) <==> EndsAnyCase(name, suffix)
  {
    var lower := Lower(name);
    forall c: char, small: char | !('A' <= small <= 'Z') ensures SameLetter(c, small) <==> LowerChar(c) == small {
    }
    hide SameLetter, LowerChar;
    if |suffix| <= |name| {
      var n := |name| - |suffix|;
      assert forall k :: 0 <= k < |suffix| ==> lower[n..][k] == LowerChar(name[n + k]);
      assert lower[n..] == suffix <==> forall k :: 0 <= k < |suffix| ==> lower[n..][k] == suffix[k];
    }
  }

  /** Which names are looked at. */
  lemma DatabaseNames(name: string)
    ensures IsDatabaseName(name) <==> SqliteName(name)
  {
    LowerEnds(name, ".db");
    LowerEnds(name, ".sqlite");
    LowerEnds(name, ".sqlite3");
    var lower := Lower(name);
    if EndsWith(lower, "-wal") || EndsWith(lower, "-shm") {
      NotASidecar(lower);
    }
    hide EndsAnyCase, Lower;
    assert StartsWith(name, "._") <==> |name| >= 2 && name[0] == '.' && name[1] == '_' by {
      if |name| >= 2 { assert name[..2] == [name[0], name[1]]; }
    }
  }

  lemma NotASidecar(lower: string)
    requires EndsWith(lower, "-wal") || EndsWith(lower, "-shm")
    ensures !EndsWith(lower, ".db") && !EndsWith(lower, ".sqlite") && !EndsWith(lower, ".sqlite3")
  {
    LastCharacter(lower, "-wal");
    LastCharacter(lower, "-shm");
    LastCharacter(lower, ".db");
    LastCharacter(lower, ".sqlite");
    LastCharacter(lower, ".sqlite3");
    hide EndsWith;
  }

  lemma LastCharacter(s: string, suffix: string)
    requires suffix != ""
    ensures EndsWith(s, suffix) ==> s != "" && s[|s| - 1] == suffix[|suffix| - 1]
  {
    if EndsWith(s, suffix) { assert s[|s| - |suffix|..][|suffix| - 1] == s[|s| - 1]; }
  }

  lemma HasDataIs(d: Listing, name: string)
    ensures HasData(d, name) <==> NonemptyFile(d, name)
  {
    forall k | 0 <= k < |d| ensures Full(d[k].entry) <==> Nonempty(d, k) {
    }
    hide Full, Nonempty;
  }

  /** The scan lists exactly the names of regular, non-empty files that end in .db, .sqlite or
      .sqlite3, in any mix of cases, and are not metadata of the operating system. */
  lemma ScanListsIff(d: Listing, name: string)
    ensures name in Existing(d) <==> NonemptyFile(d, name) && SqliteName(name)
  {
    ExistingHasData(d, name);
    HasDataIs(d, name);
    DatabaseNames(name);
  }

  lemma NothingListed(d: Listing)
    ensures Existing(d) == [] <==> NoDatabase(d)
  {
    hide Existing, SqliteName, Nonempty;
    if Existing(d) == [] {
      forall k | 0 <= k < |d| ensures !DatabaseAt(d, k) { ScanListsIff(d, d[k].name); }
    } else {
      var name := Existing(d)[0];
      ScanListsIff(d, name);
      var k :| 0 <= k < |d| && d[k].name == name && Nonempty(d, k);
      assert DatabaseAt(d, k);
    }
  }

  /** The scan lists one name for each database. */
  lemma {:induction false} ListedOnce(d: Listing)
    ensures |Existing(d)| >= 2 <==> exists j, k :: 0 <= j < k < |d| && DatabaseAt(d, j) && DatabaseAt(d, k)
    decreases |d|
  {
    hide IsDatabaseName, Full, DatabaseAt;
    if d != [] {
      var n := |d| - 1;
      var rest := d[..n];
      ListedOnce(rest);
      NothingListed(rest);
      assert forall k :: 0 <= k < n ==> (DatabaseAt(rest, k) <==> DatabaseAt(d, k)) by {
        forall k | 0 <= k < n ensures DatabaseAt(rest, k) <==> DatabaseAt(d, k) { SameEntry(d, n, k); }
      }
      LastListed(d);
      assert |Existing(d)| == |Existing(rest)| + if DatabaseAt(d, n) then 1 else 0;
      if DatabaseAt(d, n) && !NoDatabase(rest) {
        var j :| 0 <= j < n && DatabaseAt(rest, j);
        assert DatabaseAt(d, j) && DatabaseAt(d, n);
      }
      if j, k :| 0 <= j < k < |d| && DatabaseAt(d, j) && DatabaseAt(d, k) {
        assert DatabaseAt(rest, j);
      }
    }
  }

  lemma SameEntry(d: Listing, n: nat, k: nat)
    requires k < n <= |d|
    ensures DatabaseAt(d[..n], k) <==> DatabaseAt(d, k)
  {
  }

  lemma LastListed(d: Listing)
    requires d != []
    ensures IsDatabaseName(d[|d| - 1].name) && Full(d[|d| - 1].entry) <==> DatabaseAt(d, |d| - 1)
  {
    DatabaseNames(d[|d| - 1].name);
    hide IsDatabaseName, SqliteName;
  }

  /** An empty database is chosen only when there is no other; another file is chosen only
      when it is the one file with data; and when there are several nothing is chosen. */
  lemma NeverSwitchesToAnEmptyFile(d: Listing, name: string)
    ensures Resolve(d, name).Ok? ==> NonemptyFile(d, Resolve(d, name).value) || NoDatabase(d)
    ensures Resolve(d, name).Ok? && Resolve(d, name).value != name ==>
              !NonemptyFile(d, name) && forall k :: 0 <= k < |d| && DatabaseAt(d, k) ==> d[k].name == Resolve(d, name).value
    ensures Resolve(d, name).Err? ==>
              |Resolve(d, name).error| > 1 && !NonemptyFile(d, name)
              && forall n :: n in Resolve(d, name).error <==> NonemptyFile(d, n) && SqliteName(n)
  {
    var others := Without(Existing(d), name);
    HasDataIs(d, name);
    NothingListed(d);
    forall n ensures n in Existing(d) <==> NonemptyFile(d, n) && SqliteName(n) {
      ScanListsIff(d, n);
    }
    hide Existing, SqliteName, HasData;
    if |others| == 1 {
      assert others == [others[0]];
    }
    forall k | 0 <= k < |d| && DatabaseAt(d, k) ensures d[k].name in Existing(d) {
      hide Nonempty;
    }
    hide Nonempty;
  }

  /** Which file is chosen, and when none: the one asked for when it has data, else the one
      database with data, else the one asked for; and none when there are two to choose from. */
  lemma ResolvesIff(d: Listing, name: string)
    ensures Resolve(d, name).Err? <==>
              !NonemptyFile(d, name) && exists j, k :: 0 <= j < k < |d| && DatabaseAt(d, j) && DatabaseAt(d, k)
    ensures Resolve(d, name).Ok? && (NonemptyFile(d, name) || NoDatabase(d)) ==> Resolve(d, name).value == name
    ensures Resolve(d, name).Ok? && !NonemptyFile(d, name) ==>
              forall k :: 0 <= k < |d| && DatabaseAt(d, k) ==> d[k].name == Resolve(d, name).value
  {
    HasDataIs(d, name);
    NothingListed(d);
    ListedOnce(d);
    ScanListsIff(d, name);
    NeverSwitchesToAnEmptyFile(d, name);
    if !HasData(d, name) { WithoutAbsent(Existing(d), name); }
    forall k | 0 <= k < |d| && DatabaseAt(d, k) ensures NonemptyFile(d, d[k].name) {
    }
    hide Existing, SqliteName, HasData, Nonempty, NonemptyFile;
  }

  lemma {:induction false} WithoutAbsent(names: seq<string>, name: string)
    requires name !in names
    ensures Without(names, name) == names
  {
    if names != [] {
      WithoutAbsent(names[1..], name);
      assert names == [names[0]] + names[1..];
    }
  }

  // ---- Choosing the URL ------------------------------------------------------------------------

  /** PurePath(raw).name */
  function BaseName(raw: string): string
    decreases |raw|
  {
    var n := LastPart(raw);
    var part := raw[n..];
    if part in ["", "."] then if n > 0 then BaseName(raw[..n - 1]) else ""
    else part
  }

  function Wanted(filename: Option<string>): string {
    BaseName(if filename.Some? && filename.value != "" then filename.value else DEFAULT_NAME)
  }

  predicate Names(d: Listing, name: string) {
    exists k :: 0 <= k < |d| && d[k].name == name
  }

  /** The data directory after the source's database was copied into it, when nothing of that
      name was there; `source` is what the copy left. */
  function AfterCopy(d: Listing, name: string, source: Option<Entry>): Listing {
    if source.Some? && name !in ["", ".."] && !Names(d, name) then d + [Dirent(name, source.value)] else d
  }

  /** The last part of a path that is neither empty nor a dot. */
  lemma BaseNameIs(dir: string, name: string)
    requires (dir == "" || dir[|dir| - 1] == '/') && Lacks(name, "/") && name != "" && name != "."
    ensures BaseName(dir + name) == name
  {
    LastPartIs(dir, name);
    hide LastPart, Lacks;
    assert (dir + name)[|dir|..] == name;
  }

  /** What else a path can end in does not matter. */
  lemma BaseNameOfRest(dir: string)
    ensures BaseName(dir + "/") == BaseName(dir) && BaseName(dir + "/.") == BaseName(dir)
    ensures BaseName("") == "" && BaseName(".") == ""
  {
    NothingToLookFor();
    LastPartIs(dir + "/", "");
    LastPartIs(dir + "/", ".");
    assert dir + "/" + "" == dir + "/" && dir + "/" + "." == dir + "/.";
    hide LastPart;
    EndsOfPath(dir);
  }

  lemma EndsOfPath(dir: string)
    ensures (dir + "/")[|dir| + 1..] == "" && (dir + "/.")[|dir| + 1..] == "."
    ensures (dir + "/")[..|dir|] == dir && (dir + "/.")[..|dir|] == dir
  {
  }

  lemma NothingToLookFor()
    ensures BaseName("") == "" && BaseName(".") == ""
  {
    LastPartIs("", "");
    LastPartIs("", ".");
    assert "" + "." == ".";
    hide LastPart;
    assert "."[0..] == ".";
  }

  /** The name to look for: that of the file found in the source, or the default. */
  lemma WantedIs(dir: string, name: string)
    requires (dir == "" || dir[|dir| - 1] == '/') && Lacks(name, "/") && name != "" && name != "."
    ensures Wanted(Some(dir + name)) == name && Wanted(None) == "app.sqlite" && Wanted(Some("")) == "app.sqlite"
  {
    assert Lacks("app.sqlite", "/");
    hide BaseName, Lacks;
    BaseNameIs(dir, name);
    BaseNameIs("", "app.sqlite");
    assert "" + "app.sqlite" == "app.sqlite";
  }

  /** The copy adds the source's database when nothing of its name is there, and takes no other
      file away. */
  lemma CopiedIs(d: Listing, name: string, source: Option<Entry>, n: string)
    ensures NonemptyFile(AfterCopy(d, name, source), n)
       <==> || NonemptyFile(d, n)
            || (n == name && name != "" && name != ".." && (forall k :: 0 <= k < |d| ==> d[k].name != name)
                && exists size: nat :: size > 0 && source == Some(File(Some(size))))
  {
    var after := AfterCopy(d, name, source);
    assert forall k :: 0 <= k < |d| ==> after[k] == d[k];
    if k :| 0 <= k < |after| && after[k].name == n && Nonempty(after, k) {
      if k < |d| { assert Nonempty(d, k); }
    }
    if k :| 0 <= k < |d| && d[k].name == n && Nonempty(d, k) {
      assert Nonempty(after, k);
    }
    if |after| > |d| && after[|d|].name == n && source.value.File? && source.value.size.Some? && source.value.size.value > 0 {
      assert Nonempty(after, |d|);
    }
  }

  /** The URL generate_env writes for an application that reads DATABASE_URL: `preserved` is
      the old one, `wanted` the name to use when there was none. */
  function ChosenUrl(preserved: Option<string>, d: Listing, wanted: string): Result<string, seq<string>> {
    if preserved.Some? && preserved.value != "" then
      var u := Parse(preserved.value);
      if u.None? || u.value.dir != APP_DATA then Ok(preserved.value) else
      match Resolve(d, u.value.name)
      case Err(names) => Err(names)
      case Ok(f) => Ok(if f == u.value.name then preserved.value else Url(f, u.value.query))
    else
      match Resolve(d, wanted)
      case Err(names) => Err(names)
      case Ok(f) => Ok(Url(f, ""))
  }

  /** The file of the data directory that the URL is meant to name, if it is meant to name one,
      and whether a URL is made for it: an old URL that names it is kept as it is. */
  function ChosenFile(preserved: Option<string>, d: Listing, wanted: string): Option<(string, bool)> {
    if preserved.Some? && preserved.value != "" then
      var u := Parse(preserved.value);
      if u.None? || u.value.dir != APP_DATA then None else
      match Resolve(d, u.value.name)
      case Err(_) => None
      case Ok(f) => Some((f, f != u.value.name))
    else
      match Resolve(d, wanted)
      case Err(_) => None
      case Ok(f) => Some((f, true))
  }

  function QueryOf(preserved: Option<string>): string {
    if preserved.Some? && preserved.value != "" && Parse(preserved.value).Some? then Parse(preserved.value).value.query
    else ""
  }

  /** A URL can name the file: its name is not cut short. */
  predicate CanBeNamed(name: string, query: string) {
    PlainName(name) && (query == "" ==> !EndsBlank(name))
  }

  lemma FilePartQuery(rest: string)
    requires Lacks(rest, DROPPED) && FilePart(rest).Some?
    ensures PlainQuery(FilePart(rest).value.query)
  {
    CutIsShorter(rest);
    hide Cut, LastPart;
  }

  /** The query of a URL that was read can be written again. */
  lemma ParsedQueryIsPlain(value: string)
    requires Parse(value).Some?
    ensures PlainQuery(Parse(value).value.query)
  {
    hide Cleaned, Uncontrolled, Unquoted, FilePart, PlainQuery, Lower, Lacks;
    var url := Cleaned(Uncontrolled(Unquoted(value)));
    CleanedLacks(Uncontrolled(Unquoted(value)));
    var rest := url[Find(url, ":") + 1..];
    LacksFrom(url, Find(url, ":") + 1);
    if StartsWith(rest, "//") {
      LacksFrom(rest, 2);
      FilePartQuery(rest[2..]);
    } else {
      FilePartQuery(rest);
    }
  }

  lemma LacksFrom(s: string, n: nat)
    requires Lacks(s, DROPPED) && n <= |s|
    ensures Lacks(s[n..], DROPPED)
  {
  }

  lemma {:induction false} TrimmedAfter(p: string, s: string)
    requires p != "" && !IsBlank(p[|p| - 1])
    ensures Trimmed(p + s) == p + Trimmed(s)
    decreases |s|
  {
    if s == "" {
      assert p + s == p;
    } else if EndsBlank(s) {
      assert (p + s)[..|p + s| - 1] == p + s[..|s| - 1];
      TrimmedAfter(p, s[..|s| - 1]);
    }
  }

  predicate NamesFile(url: string, name: string) {
    Parse(url).Some? && Parse(url).value.dir == APP_DATA && Parse(url).value.name == name
  }

  /** A written URL names its file exactly when the name is not cut short; a query at its end
      is trimmed, a name is lost. */
  lemma NamesItsFileIff(name: string, query: string)
    requires PlainQuery(query)
    ensures NamesFile(Url(name, query), name) <==> CanBeNamed(name, query)
  {
    hide Parse, IsBlank, PlainName, PlainQuery, EndsBlank;
    if CanBeNamed(name, query) {
      if query == "" {
        assert name + Suffix(query) == name;
        EmptyQueryIsPlain();
        PlainReadsBack(name, "");
      } else {
        QueryIsTrimmed(name, query);
      }
    }
    if NamesFile(Url(name, query), name) {
      NamedIsPlain(name, query);
    }
  }

  lemma NamedIsPlain(name: string, query: string)
    requires NamesFile(Url(name, query), name)
    ensures CanBeNamed(name, query)
  {
    hide Parse, Cut, Trimmed, Cleaned, IsBlank;
    var t := name + Suffix(query);
    assert Url(name, query) == PREFIX + t;
    ParsePrefixed(t);
    var u := Cleaned(Trimmed(t));
    var (path, q) := Cut(u);
    assert path == name;
    TrimmedIsPrefix(t);
    CleanedLacks(Trimmed(t));
    CutIsShorter(u);
    if query == "" { assert t == name; }
  }

  lemma EmptyQueryIsPlain()
    ensures PlainQuery("") && !EndsBlank("")
  {
  }

  lemma QueryIsTrimmed(name: string, query: string)
    requires PlainName(name) && PlainQuery(query) && query != ""
    ensures Parse(Url(name, query)) == Some(SqliteUrl(APP_DATA, name, Trimmed(query)))
  {
    hide *;
    var t, kept := name + "?" + query, Trimmed(query);
    TrimmedIsPrefix(query);
    KeptIsTrimmed(name, query);
    KeptIsPlain(name, query, kept);
    CleanedLacks(name + "?" + kept);
    CutAt(name, kept);
    UrlWithQuery(name, query);
    ParsePrefixed(t);
  }

  lemma UrlWithQuery(name: string, query: string)
    requires query != ""
    ensures Url(name, query) == PREFIX + (name + "?" + query)
  {
  }

  lemma KeptIsTrimmed(name: string, query: string)
    ensures Trimmed(name + "?" + query) == name + "?" + Trimmed(query)
  {
    var p := name + "?";
    assert !IsBlank('?');
    assert p[|p| - 1] == '?';
    hide IsBlank, Trimmed;
    TrimmedAfter(p, query);
  }

  lemma KeptIsPlain(name: string, query: string, kept: string)
    requires PlainName(name) && PlainQuery(query) && |kept| <= |query| && kept == query[..|kept|]
    ensures Lacks(name + "?" + kept, DROPPED) && Lacks(name, "?#") && Lacks(kept, "#") && Lacks(name, "/") && name != ""
  {
  }

  lemma DatabaseNameEnds(name: string)
    requires IsDatabaseName(name)
    ensures name != "" && !EndsBlank(name)
  {
    var c := LastOf(name);
    assert !IsBlank(c) by { assert c in "bBeE3"; }
  }

  /** The last letter of a database's name. */
  function LastOf(name: string): (c: char)
    requires IsDatabaseName(name)
    ensures name != "" && name[|name| - 1] == c && c in "bBeE3"
  {
    var lower := Lower(name);
    var n := |name| - 1;
    assert n >= 0 && lower[n] in "be3" by {
      if EndsWith(lower, ".db") { assert lower[|lower| - 3..][2] == 'b'; }
      else if EndsWith(lower, ".sqlite") { assert lower[|lower| - 7..][6] == 'e'; }
      else { assert lower[|lower| - 8..][7] == '3'; }
    }
    assert lower[n] == LowerChar(name[n]);
    name[n]
  }

  /** The file that is chosen has data, or no file in the data directory has; and the URL that
      is written names it exactly when it is the old one, or the file's name is not cut short. */
  lemma WrittenUrlNamesTheDataIff(preserved: Option<string>, d: Listing, wanted: string)
    requires ChosenFile(preserved, d, wanted).Some?
    ensures var (f, made) := ChosenFile(preserved, d, wanted).value;
            var r := ChosenUrl(preserved, d, wanted);
            && (NonemptyFile(d, f) || NoDatabase(d))
            && r.Ok? && (NamesFile(r.value, f) <==> !made || CanBeNamed(f, QueryOf(preserved)))
  {
    hide Parse, Url, Existing, HasData, CanBeNamed, NonemptyFile, NoDatabase;
    if preserved.Some? && preserved.value != "" {
      var u := Parse(preserved.value);
      NeverSwitchesToAnEmptyFile(d, u.value.name);
      ParsedQueryIsPlain(preserved.value);
      NamesItsFileIff(Resolve(d, u.value.name).value, u.value.query);
    } else {
      NeverSwitchesToAnEmptyFile(d, wanted);
      EmptyQueryIsPlain();
      NamesItsFileIff(Resolve(d, wanted).value, "");
    }
  }

  /** With the directory unchanged, the next run writes the same URL when this one names its
      file. */
  lemma NextRunWritesTheSameUrl(preserved: Option<string>, d: Listing, wanted: string, wanted': string)
    requires var c := ChosenFile(preserved, d, wanted);
             c.Some? && c.value.1 ==> CanBeNamed(c.value.0, QueryOf(preserved))
    ensures var r := ChosenUrl(preserved, d, wanted);
            r.Ok? ==> r.value != "" && ChosenUrl(Some(r.value), d, wanted') == r
  {
    var c := ChosenFile(preserved, d, wanted);
    hide Parse, HasData, Existing, CanBeNamed, EndsBlank;
    if c.Some? {
      WrittenUrlNamesTheDataIff(preserved, d, wanted);
      HasDataIs(d, c.value.0);
      NothingListed(d);
      ResolvesToItself(d, c.value.0);
    }
  }

  /** What has data, or is chosen where nothing has, is chosen again. */
  lemma ResolvesToItself(d: Listing, f: string)
    requires HasData(d, f) || Existing(d) == []
    ensures Resolve(d, f) == Ok(f)
  {
    hide HasData, Existing;
  }

  // ---- Names a URL cuts short ---------------------------------------------------------------------

  lemma OnlyFile(d: Listing, name: string)
    requires IsDatabaseName(name) && d == [Dirent(name, File(Some(1)))]
    ensures Existing(d) == [name] && HasData(d, name)
    ensures forall n :: n != name ==> !HasData(d, n) && !Names(d, n)
  {
    hide IsDatabaseName;
    assert d[..0] == [];
    assert Full(d[0].entry);
  }

  lemma NotTheStem(stem: string, c: char, rest: string)
    requires c in "?#"
    ensures stem + [c] + rest != stem && stem + [c] + rest != DEFAULT_NAME
  {
    assert (stem + [c] + rest)[|stem|] == c;
    assert c !in DEFAULT_NAME;
  }

  /** When the only database has a '#' in its name, it is found, and the URL written for it
      names another file, one that is not there. */
  lemma HashInNameIsCutShort(stem: string, rest: string)
    requires PlainName(stem) && !EndsBlank(stem) && Lacks(rest, DROPPED)
    requires IsDatabaseName(stem + "#" + rest)
    ensures var name := stem + "#" + rest;
            var d := [Dirent(name, File(Some(1)))];
            && ChosenUrl(None, d, DEFAULT_NAME) == Ok(Url(name, ""))
            && Parse(Url(name, "")) == Some(SqliteUrl(APP_DATA, stem, ""))
            && HasData(d, name) && !Names(d, stem)
  {
    hide *;
    var name := stem + "#" + rest;
    var d := [Dirent(name, File(Some(1)))];
    OnlyFile(d, name);
    NotTheStem(stem, '#', rest);
    DatabaseNameEnds(name);
    FoundAlone(d, name);
    HashEndsTheName(stem, rest);
  }

  lemma FoundAlone(d: Listing, name: string)
    requires Existing(d) == [name] && !HasData(d, DEFAULT_NAME) && name != DEFAULT_NAME
    ensures ChosenUrl(None, d, DEFAULT_NAME) == Ok(Url(name, ""))
  {
    hide Existing, HasData;
    assert [name][1..] == [];
    assert Without([name], DEFAULT_NAME) == [name];
  }

  lemma HashEndsTheName(stem: string, rest: string)
    requires PlainName(stem) && Lacks(rest, DROPPED) && !EndsBlank(stem + "#" + rest)
    ensures Parse(Url(stem + "#" + rest, "")) == Some(SqliteUrl(APP_DATA, stem, ""))
  {
    hide *;
    var t := stem + "#" + rest;
    UrlOfName(t);
    TrimmedIsPrefix(t);
    PlainWithHash(stem, rest);
    CleanedLacks(t);
    CutAtHash(stem, rest);
    ParsePrefixed(t);
  }

  lemma UrlOfName(t: string)
    ensures Url(t, "") == PREFIX + t
  {
  }

  lemma PlainWithHash(stem: string, rest: string)
    requires PlainName(stem) && Lacks(rest, DROPPED)
    ensures Lacks(stem + "#" + rest, DROPPED) && Lacks(stem, "?#") && Lacks(stem, "/") && stem != ""
  {
  }

  lemma CutAtHash(stem: string, rest: string)
    requires Lacks(stem, "?#")
    ensures Cut(stem + "#" + rest) == (stem, "")
  {
    var t := stem + "#" + rest;
    FindIs(t, "#", |stem|);
    FindIs(stem, "?", |stem|);
    hide Find;
    assert t[..|stem|] == stem;
    assert stem[..|stem|] == stem;
  }

  /** When the only database has a '?' in its name, every run writes a longer URL. */
  lemma QuestionMarkInNameGrows(stem: string, ext: string)
    requires PlainName(stem) && PlainQuery(ext) && ext != "" && IsDatabaseName(stem + "?" + ext)
    ensures var name := stem + "?" + ext;
            var d := [Dirent(name, File(Some(1)))];
            && ChosenUrl(None, d, DEFAULT_NAME) == Ok(Url(name, ""))
            && ChosenUrl(Some(Url(name, "")), d, DEFAULT_NAME) == Ok(Url(name, ext))
            && |Url(name, ext)| > |Url(name, "")|
  {
    hide *;
    var name := stem + "?" + ext;
    var d := [Dirent(name, File(Some(1)))];
    OnlyFile(d, name);
    NotTheStem(stem, '?', ext);
    DatabaseNameEnds(name);
    QuestionUrl(stem, ext);
    FoundAlone(d, name);
    UrlIsLonger(name, ext);
    SwitchesTo(d, stem, name, ext, Url(name, ""));
  }

  lemma UrlIsLonger(name: string, query: string)
    requires query != ""
    ensures |Url(name, query)| > |Url(name, "")| > 0
  {
  }

  lemma QuestionUrl(stem: string, ext: string)
    requires PlainName(stem) && PlainQuery(ext) && ext != "" && !EndsBlank(stem + "?" + ext)
    ensures Parse(Url(stem + "?" + ext, "")) == Some(SqliteUrl(APP_DATA, stem, ext))
  {
    assert stem + Suffix(ext) == stem + "?" + ext;
    hide *;
    PlainReadsBack(stem, ext);
    UrlWithQuery(stem, ext);
    UrlOfName(stem + "?" + ext);
  }

  /** A URL for a missing file is pointed at the one file there is. */
  lemma SwitchesTo(d: Listing, missing: string, found: string, query: string, url: string)
    requires Existing(d) == [found] && !HasData(d, missing) && missing != found
    requires url != "" && Parse(url) == Some(SqliteUrl(APP_DATA, missing, query))
    ensures ChosenUrl(Some(url), d, DEFAULT_NAME) == Ok(Url(found, query))
  {
    hide Existing, HasData, Parse, Url;
    assert [found][1..] == [];
    assert Without([found], missing) == [found];
  }
}
