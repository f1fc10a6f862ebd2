/**
Shell quoting as section 2.2 of the Shell Command Language volume of POSIX.1-2017 gives it
and Python's shlex implements it: `Quoted` is shlex.quote, `Words` is shlex.split.  Reading
back a line of quoted words gives the words, for every list of strings.
*/
module ShellWords {
  import opened Wrappers

  /** The characters shlex.quote leaves alone. */
  predicate IsSafe(c: char) {
    'a' <= c <= 'z' || 'A' <= c <= 'Z' || '0' <= c <= '9' || c in "_@%+=:,./-"
  }

  predicate IsSpace(c: char) {
    c in " \t\r\n"
  }

  predicate AllSafe(s: string) {
    forall k :: 0 <= k < |s| ==> IsSafe(s[k])
  }

  /** s.replace("'", "'\"'\"'") */
  function Requoted(s: string): string {
    if s == "" then "" else (if s[0] == '\'' then "'\"'\"'" else [s[0]]) + Requoted(s[1..])
  }

  function Quoted(s: string): string {
    if s == "" then "''" else if AllSafe(s) then s else "'" + Requoted(s) + "'"
  }

  /** " ".join(quote(a) for a in args) */
  function QuotedLine(args: seq<string>): string {
    if args == [] then "" else if |args| == 1 then Quoted(args[0])
    else Quoted(args[0]) + " " + QuotedLine(args[1..])
  }

  lemma SafeIs(c: char)
    ensures IsSafe(c) <==> c in "ABCDEFGHIJKLMNOPQRSTUVWXYZ" || c in "abcdefghijklmnopqrstuvwxyz" || c in "0123456789_@%+=:,./-"
  {
    Capital(c);
    Small(c);
    Digit(c);
    assert c in "0123456789_@%+=:,./-" <==> c in "0123456789" || c in "_@%+=:,./-";
  }

  lemma Capital(c: char)
    ensures 'A' <= c <= 'Z' <==> c in "ABCDEFGHIJKLMNOPQRSTUVWXYZ"
  {
  }

  lemma Small(c: char)
    ensures 'a' <= c <= 'z' <==> c in "abcdefghijklmnopqrstuvwxyz"
  {
  }

  lemma Digit(c: char)
    ensures '0' <= c <= '9' <==> c in "0123456789"
  {
  }

  /** A word is left as it is exactly when it is not empty and has only letters, digits and
      _@%+=:,./- in it; any other is put between single quotes. */
  lemma QuotedIff(word: string)
    ensures Quoted(word) == word <==>
              && word != ""
              && forall k :: 0 <= k < |word| ==>
                   word[k] in "ABCDEFGHIJKLMNOPQRSTUVWXYZ" || word[k] in "abcdefghijklmnopqrstuvwxyz"
                   || word[k] in "0123456789_@%+=:,./-"
    ensures Quoted(word) != word ==> |Quoted(word)| >= 2 && Quoted(word)[0] == '\'' == Quoted(word)[|Quoted(word)| - 1]
  {
    forall c: char {
      SafeIs(c);
    }
    RequotedIsLonger(word);
    hide IsSafe, Requoted;
  }

  lemma {:induction false} RequotedIsLonger(s: string)
    ensures |Requoted(s)| >= |s|
  {
    if s != "" { RequotedIsLonger(s[1..]); }
  }

  /** Where the lexer is: between words, in a word, inside quotes, or after a backslash in
      a word or inside double quotes. */
  datatype Mode = Gap | Word | InQuote(q: char) | Escaped(inQuote: bool)

  function Cons(token: string, words: Option<seq<string>>): Option<seq<string>> {
    if words.Some? then Some([token] + words.value) else None
  }

  /** The words still to be read from `s`; None when a quote or a backslash is left open.
      `quoted` says that the current word had a quoted part, so that it counts even when
      empty. */
  function Lex(s: string, mode: Mode, token: string, quoted: bool): Option<seq<string>>
    decreases |s|
  {
    var emit := token != "" || quoted;
    if s == "" then
      match mode
      case Gap => Some([])
      case Word => if emit then Some([token]) else Some([])
      case _ => None
    else
      var c, rest := s[0], s[1..];
      match mode
      case Gap =>
        if IsSpace(c) then Lex(rest, Gap, "", false)
        else if c == '\\' then Lex(rest, Escaped(false), "", false)
        else if c == '\'' || c == '"' then Lex(rest, InQuote(c), "", true)
        else Lex(rest, Word, [c], false)
      case Word =>
        if IsSpace(c) then if emit then Cons(token, Lex(rest, Gap, "", false)) else Lex(rest, Gap, "", false)
        else if c == '\'' || c == '"' then Lex(rest, InQuote(c), token, true)
        else if c == '\\' then Lex(rest, Escaped(false), token, quoted)
        else Lex(rest, Word, token + [c], quoted)
      case InQuote(q) =>
        if c == q then Lex(rest, Word, token, true)
        else if c == '\\' && q == '"' then Lex(rest, Escaped(true), token, true)
        else Lex(rest, InQuote(q), token + [c], true)
      case Escaped(inQuote) =>
        var keep := if inQuote && c != '\\' && c != '"' then "\\" else "";
        Lex(rest, if inQuote then InQuote('"') else Word, token + keep + [c], quoted)
  }

  function Words(s: string): Option<seq<string>> {
    Lex(s, Gap, "", false)
  }

  // ---- Reading back what was quoted ----------------------------------------------------

  lemma {:induction false} SafeRun(x: string, rest: string, token: string)
    requires AllSafe(x)
    ensures Lex(x + rest, Word, token, false) == Lex(rest, Word, token + x, false)
    decreases |x|
  {
    if x == "" {
      assert x + rest == rest && token + x == token;
    } else {
      assert (x + rest)[1..] == x[1..] + rest;
      assert IsSafe(x[0]);
      SafeRun(x[1..], rest, token + [x[0]]);
      assert token + [x[0]] + x[1..] == token + x;
    }
  }

  /** What shlex.quote writes for one character inside the single quotes. */
  function Piece(c: char): string {
    if c == '\'' then "'\"'\"'" else [c]
  }

  lemma RequotedFirst(x: string, rest: string)
    requires x != ""
    ensures Requoted(x) + rest == Piece(x[0]) + (Requoted(x[1..]) + rest)
  {
    var piece, tail := Piece(x[0]), Requoted(x[1..]);
    assert Requoted(x) == piece + tail;
    hide Requoted, Piece;
    Associative(piece, tail, rest);
  }

  lemma Associative(a: string, b: string, c: string)
    ensures a + b + c == a + (b + c)
  {
  }

  lemma {:induction false} QuoteRun(x: string, rest: string, token: string)
    ensures Lex(Requoted(x) + rest, InQuote('\''), token, true) == Lex(rest, InQuote('\''), token + x, true)
    decreases |x|
  {
    if x == "" {
      assert Requoted(x) + rest == rest && token + x == token;
    } else {
      hide Lex, Requoted, Piece;
      RequotedFirst(x, rest);
      PieceInQuote(x[0], Requoted(x[1..]) + rest, token);
      QuoteRun(x[1..], rest, token + [x[0]]);
      Associative(token, [x[0]], x[1..]);
      assert x == [x[0]] + x[1..];
    }
  }

  lemma PieceInQuote(c: char, tail: string, token: string)
    ensures Lex(Piece(c) + tail, InQuote('\''), token, true) == Lex(tail, InQuote('\''), token + [c], true)
  {
    hide Lex;
    if c == '\'' {
      ReopenedQuote(tail, token);
    } else {
      PlainInQuote(c, tail, token);
    }
  }

  lemma PlainInQuote(c: char, tail: string, token: string)
    requires c != '\''
    ensures Lex([c] + tail, InQuote('\''), token, true) == Lex(tail, InQuote('\''), token + [c], true)
  {
    assert ([c] + tail)[1..] == tail;
  }

  /** Close the single quote, give one in double quotes, and open again. */
  lemma ReopenedQuote(tail: string, token: string)
    ensures Lex("'\"'\"'" + tail, InQuote('\''), token, true) == Lex(tail, InQuote('\''), token + "'", true)
  {
    var s4 := "'" + tail;
    var s3 := "\"" + s4;
    var s2 := "'" + s3;
    var s1 := "\"" + s2;
    var s := "'" + s1;
    assert s == "'\"'\"'" + tail;
    assert s[1..] == s1 && s1[1..] == s2 && s2[1..] == s3 && s3[1..] == s4 && s4[1..] == tail;
    assert Lex(s, InQuote('\''), token, true) == Lex(s1, Word, token, true) == Lex(s2, InQuote('"'), token, true);
    assert Lex(s2, InQuote('"'), token, true) == Lex(s3, InQuote('"'), token + "'", true);
    assert Lex(s3, InQuote('"'), token + "'", true) == Lex(s4, Word, token + "'", true);
  }

  /** One quoted word, up to the end or a space. */
  lemma WordReadsBack(x: string, rest: string)
    requires rest == "" || rest[0] == ' '
    ensures Lex(Quoted(x) + rest, Gap, "", false)
            == if rest == "" then Some([x]) else Cons(x, Lex(rest[1..], Gap, "", false))
  {
    if x != "" && AllSafe(x) {
      BareReadsBack(x, rest);
    } else {
      assert Quoted(x) == "'" + Requoted(x) + "'" by {
        if x == "" { assert "'" + Requoted(x) + "'" == "''"; }
      }
      hide Lex;
      SingleQuotedReadsBack(x, rest);
    }
  }

  lemma BareReadsBack(x: string, rest: string)
    requires x != "" && AllSafe(x) && (rest == "" || rest[0] == ' ')
    ensures Lex(x + rest, Gap, "", false) == if rest == "" then Some([x]) else Cons(x, Lex(rest[1..], Gap, "", false))
  {
    assert (x + rest)[1..] == x[1..] + rest && IsSafe(x[0]);
    assert Lex(x + rest, Gap, "", false) == Lex(x[1..] + rest, Word, [x[0]], false);
    SafeRun(x[1..], rest, [x[0]]);
    assert [x[0]] + x[1..] == x;
  }

  lemma SingleQuotedReadsBack(x: string, rest: string)
    requires rest == "" || rest[0] == ' '
    ensures Lex("'" + Requoted(x) + "'" + rest, Gap, "", false)
            == if rest == "" then Some([x]) else Cons(x, Lex(rest[1..], Gap, "", false))
  {
    var close := "'" + rest;
    var s := "'" + Requoted(x) + "'" + rest;
    assert s[1..] == Requoted(x) + close && close[1..] == rest;
    assert Lex(s, Gap, "", false) == Lex(s[1..], InQuote('\''), "", true);
    QuoteRun(x, close, "");
    assert "" + x == x;
    assert Lex(close, InQuote('\''), x, true) == Lex(rest, Word, x, true);
  }

  /** shlex.split of a line of shlex.quote'd words is the words. */
  lemma {:induction false} LineReadsBack(args: seq<string>)
    ensures Words(QuotedLine(args)) == Some(args)
    decreases |args|
  {
    if |args| == 1 {
      WordReadsBack(args[0], "");
      assert Quoted(args[0]) + "" == Quoted(args[0]);
      assert args == [args[0]];
    } else if |args| > 1 {
      var rest := " " + QuotedLine(args[1..]);
      assert QuotedLine(args) == Quoted(args[0]) + rest;
      WordReadsBack(args[0], rest);
      assert rest[1..] == QuotedLine(args[1..]);
      LineReadsBack(args[1..]);
      assert [args[0]] + args[1..] == args;
    }
  }

  // ---- A word has no character its line does not have --------------------------------------

  predicate Within(t: string, s: string) {
    forall k :: 0 <= k < |t| ==> t[k] in s
  }

  lemma {:induction false} WordsComeFromTheLine(s: string, mode: Mode, token: string, quoted: bool, all: string, w: string)
    requires Within(s, all) && Within(token, all) && (mode.Escaped? ==> '\\' in all)
    requires Lex(s, mode, token, quoted).Some? && w in Lex(s, mode, token, quoted).value
    ensures Within(w, all)
    decreases |s|
  {
    if s != "" {
      var c, rest := s[0], s[1..];
      assert c in all && Within(rest, all);
      var emit := token != "" || quoted;
      match mode
      case Gap =>
        if IsSpace(c) { WordsComeFromTheLine(rest, Gap, "", false, all, w); }
        else if c == '\\' { WordsComeFromTheLine(rest, Escaped(false), "", false, all, w); }
        else if c == '\'' || c == '"' { WordsComeFromTheLine(rest, InQuote(c), "", true, all, w); }
        else { WordsComeFromTheLine(rest, Word, [c], false, all, w); }
      case Word =>
        if IsSpace(c) {
          if !emit || w != token { WordsComeFromTheLine(rest, Gap, "", false, all, w); }
        }
        else if c == '\'' || c == '"' { WordsComeFromTheLine(rest, InQuote(c), token, true, all, w); }
        else if c == '\\' { WordsComeFromTheLine(rest, Escaped(false), token, quoted, all, w); }
        else { WordsComeFromTheLine(rest, Word, token + [c], quoted, all, w); }
      case InQuote(q) =>
        if c == q { WordsComeFromTheLine(rest, Word, token, true, all, w); }
        else if c == '\\' && q == '"' { WordsComeFromTheLine(rest, Escaped(true), token, true, all, w); }
        else { WordsComeFromTheLine(rest, InQuote(q), token + [c], true, all, w); }
      case Escaped(inQuote) =>
        var keep := if inQuote && c != '\\' && c != '"' then "\\" else "";
        WordsComeFromTheLine(rest, if inQuote then InQuote('"') else Word, token + keep + [c], quoted, all, w);
    }
  }

  // ---- Backslashes and double quotes ------------------------------------------------------------

  /** A word as a hand-written line may give it: each character after a backslash. */
  function Slashed(s: string): string {
    if s == "" then "" else "\\" + [s[0]] + Slashed(s[1..])
  }

  /** Between double quotes a backslash is needed before a backslash and a double quote, and is kept
      before anything else. */
  function DoubleQuoted(s: string): string {
    if s == "" then "" else (if s[0] == '"' || s[0] == '\\' then "\\" + [s[0]] else [s[0]]) + DoubleQuoted(s[1..])
  }

  lemma {:induction false} SlashedIsRead(s: string, token: string, quoted: bool)
    requires token != "" || quoted || s != ""
    ensures Lex(Slashed(s), Word, token, quoted) == Some([token + s])
    decreases |s|
  {
    if s == "" {
      assert token + s == token;
    } else {
      var t, c, rest := Slashed(s), [s[0]], Slashed(s[1..]);
      assert t[0] == '\\' && t[1..] == c + rest && (c + rest)[1..] == rest;
      assert token + "" + c == token + c && token + c + s[1..] == token + s;
      SlashedIsRead(s[1..], token + c, quoted);
    }
  }

  /** A word with a backslash before every character is read as the word. */
  lemma SlashedReadsBack(s: string)
    requires s != ""
    ensures Words(Slashed(s)) == Some([s])
  {
    var t, c, rest := Slashed(s), [s[0]], Slashed(s[1..]);
    assert t[0] == '\\' && t[1..] == c + rest && (c + rest)[1..] == rest;
    assert "" + "" + c == c && c + s[1..] == s;
    assert Lex(t, Gap, "", false) == Lex(c + rest, Escaped(false), "", false) == Lex(rest, Word, c, false);
    SlashedIsRead(s[1..], c, false);
  }

  lemma {:induction false} DoubleQuotedIsRead(s: string, token: string)
    ensures Lex(DoubleQuoted(s) + "\"", InQuote('"'), token, true) == Some([token + s])
    decreases |s|
  {
    var t := DoubleQuoted(s) + "\"";
    if s == "" {
      assert t == "\"" && t[1..] == "" && token + s == token;
    } else {
      var c, rest := [s[0]], DoubleQuoted(s[1..]) + "\"";
      assert token + "" + c == token + c && token + c + s[1..] == token + s;
      DoubleQuotedIsRead(s[1..], token + c);
      if s[0] == '"' || s[0] == '\\' {
        assert t[0] == '\\' && t[1..] == c + rest && (c + rest)[1..] == rest;
      } else {
        assert t == c + rest && t[1..] == rest;
      }
    }
  }

  /** A word between double quotes, with a backslash before backslashes and double quotes, is read
      as the word. */
  lemma DoubleQuotedReadsBack(s: string)
    ensures Words("\"" + (DoubleQuoted(s) + "\"")) == Some([s])
  {
    var t := "\"" + (DoubleQuoted(s) + "\"");
    assert t[0] == '"' && t[1..] == DoubleQuoted(s) + "\"" && "" + s == s;
    DoubleQuotedIsRead(s, "");
  }

  /** Between double quotes any other backslash stays. */
  lemma OtherBackslashStays(c: char, rest: string, token: string)
    requires c != '"' && c != '\\'
    ensures Lex("\\" + ([c] + rest), InQuote('"'), token, true) == Lex(rest, InQuote('"'), token + "\\" + [c], true)
  {
    var t := "\\" + ([c] + rest);
    assert t[1..] == [c] + rest && ([c] + rest)[1..] == rest;
  }
}
