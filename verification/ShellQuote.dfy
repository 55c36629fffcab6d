/** Quoting an argument vector for a POSIX shell, checked against the shell's own
    rules for splitting a command into words. */
module ShellQuote {
  import opened Optional

  predicate Safe(c: char) {
    'a' <= c <= 'z' || 'A' <= c <= 'Z' || '0' <= c <= '9'
    || c in {'-', '_', '.', '/', ':', '@', '+', ','}
  }

  predicate AllSafe(s: string) {
    forall i | 0 <= i < |s| :: Safe(s[i])
  }

  /** Every single quote becomes: close, escaped quote, open. */
  function EscapeQuote(c: char): string {
    if c == '\'' then "'\\''" else [c]
  }

  function EscapeQuotes(s: string): string {
    if s == [] then [] else EscapeQuote(s[0]) + EscapeQuotes(s[1..])
  }

  function Quoted(s: string): string {
    if s == "" then "''" else if AllSafe(s) then s else "'" + EscapeQuotes(s) + "'"
  }

  function Joined(parts: seq<string>): string {
    if parts == [] then [] else if |parts| == 1 then parts[0] else parts[0] + " " + Joined(parts[1..])
  }

  function QuotedAll(args: seq<string>): seq<string> {
    seq(|args|, i requires 0 <= i < |args| => Quoted(args[i]))
  }

  method Quote(s: string) returns (r: string)
    ensures r == Quoted(s)
  {
    if s == "" {
      return "''";
    }
    var safe := true;
    for i := 0 to |s|
      invariant safe ==> forall j | 0 <= j < i :: Safe(s[j])
      invariant !safe ==> exists j :: 0 <= j < |s| && !Safe(s[j])
    {
      if safe {
        var c := s[i];
        if !Safe(c) {
          safe := false;
        }
      }
    }
    if safe {
      return s;
    }
    return "'" + EscapeQuotes(s) + "'";
  }

  method Join(args: seq<string>) returns (r: string)
    ensures r == Joined(QuotedAll(args))
  {
    var parts := new string[|args|];
    for i := 0 to |args|
      invariant forall j | 0 <= j < i :: parts[j] == Quoted(args[j])
    {
      parts[i] := Quote(args[i]);
    }
    assert parts[..] == QuotedAll(args);
    r := Joined(parts[..]);
  }

  /** Several arguments are quoted; a single one is a whole shell command, and the
      legacy command string is used when there is none. */
  method BuildRemoteCommand(args: seq<string>, cmd: string) returns (r: string)
    ensures |args| == 0 ==> r == cmd
    ensures |args| == 1 ==> r == args[0]
    ensures |args| >= 2 ==> Split(r) == Some(args)
  {
    if |args| == 0 {
      return cmd;
    }
    if |args| == 1 {
      return args[0];
    }
    r := Join(args);
    SplitJoined(args);
  }

  // ---- the reference: XCU sections 2.2 and 2.3 ----

  /** Characters with a meaning of their own to the shell outside quotes; `=` and
      `%` are included for the positions where they have one. */
  predicate Special(c: char) {
    c in {'|', '&', ';', '<', '>', '(', ')', '$', '`', '\n', '*', '?', '[', ']', '#', '~', '=', '%', '!', '{', '}', '^'}
  }

  datatype Mode = Plain | Single | Double

  datatype Reader = Reader(left: string, mode: Mode, word: Option<string>, done: seq<string>)

  /** The effect of the next character, or of the next two after a backslash. */
  function Take(r: Reader): (next: Option<Reader>)
    requires r.left != []
    ensures next.Some? ==> |next.value.left| < |r.left|
  {
    var c, rest, done := r.left[0], r.left[1..], r.done;
    var w := if r.word.Some? then r.word.value else "";
    match r.mode
    case Single =>
      if c == '\'' then Some(Reader(rest, Plain, Some(w), done)) else Some(Reader(rest, Single, Some(w + [c]), done))
    case Double =>
      if c == '"' then Some(Reader(rest, Plain, Some(w), done))
      else if c == '$' || c == '`' then None
      else if c == '\\' && rest != [] && rest[0] in {'$', '`', '"', '\\'} then
        Some(Reader(rest[1..], Double, Some(w + [rest[0]]), done))
      else if c == '\\' && rest != [] && rest[0] == '\n' then Some(Reader(rest[1..], Double, Some(w), done))
      else Some(Reader(rest, Double, Some(w + [c]), done))
    case Plain =>
      if c == '\'' then Some(Reader(rest, Single, Some(w), done))
      else if c == '"' then Some(Reader(rest, Double, Some(w), done))
      else if c == '\\' then
        (if rest == [] then None
         else if rest[0] == '\n' then Some(Reader(rest[1..], Plain, r.word, done))
         else Some(Reader(rest[1..], Plain, Some(w + [rest[0]]), done)))
      else if c == ' ' || c == '\t' then
        Some(Reader(rest, Plain, None, if r.word.Some? then done + [w] else done))
      else if Special(c) then None
      else Some(Reader(rest, Plain, Some(w + [c]), done))
  }

  function Read(r: Reader): Option<seq<string>>
    decreases |r.left|
  {
    if r.left == [] then
      if r.mode.Plain? then Some(if r.word.Some? then r.done + [r.word.value] else r.done) else None
    else
      var next := Take(r);
      if next.Some? then Read(next.value) else None
  }

  /** Splits a command into words and removes quotes: blanks separate words
      (section 2.3), a backslash keeps the next character (2.2.1), single quotes
      keep everything (2.2.2), double quotes everything but $, ` and some
      backslashes (2.2.3). `word` is the word in progress, if any. The result is
      None if a quote is left open or a special character is met unquoted. */
  function Scan(s: string, mode: Mode, word: Option<string>, done: seq<string>): Option<seq<string>> {
    Read(Reader(s, mode, word, done))
  }

  function Split(s: string): Option<seq<string>> {
    Scan(s, Plain, None, [])
  }

  // ---- the proof ----

  lemma ScanSafeChar(c: char, rest: string, w: string, done: seq<string>)
    requires Safe(c)
    ensures Scan([c] + rest, Plain, Some(w), done) == Scan(rest, Plain, Some(w + [c]), done)
  {
    assert ([c] + rest)[1..] == rest;
  }

  lemma {:induction false} ScanSafe(s: string, rest: string, w: string, done: seq<string>)
    requires AllSafe(s)
    ensures Scan(s + rest, Plain, Some(w), done) == Scan(rest, Plain, Some(w + s), done)
    decreases |s|
  {
    if s == [] {
      assert s + rest == rest && w + s == w;
    } else {
      assert s + rest == [s[0]] + (s[1..] + rest);
      ScanSafeChar(s[0], s[1..] + rest, w, done);
      ScanSafe(s[1..], rest, w + [s[0]], done);
      assert w + [s[0]] + s[1..] == w + s;
    }
  }

  lemma {:induction false} ScanEscaped(s: string, rest: string, w: string, done: seq<string>)
    ensures Scan(EscapeQuotes(s) + "'" + rest, Single, Some(w), done) == Scan(rest, Plain, Some(w + s), done)
    decreases |s|
  {
    if s == [] {
      ScanCloseQuote(rest, w, done);
      assert w + s == w;
    } else {
      EscapedHead(s, rest);
      ScanEscapedChar(s[0], EscapeQuotes(s[1..]) + "'" + rest, w, done);
      ScanEscaped(s[1..], rest, w + [s[0]], done);
      OneByOne(w, s);
    }
  }

  lemma OneByOne(w: string, s: string)
    requires s != []
    ensures w + [s[0]] + s[1..] == w + s
  {}

  lemma ScanEscapedChar(c: char, tail: string, w: string, done: seq<string>)
    ensures Scan(EscapeQuote(c) + tail, Single, Some(w), done) == Scan(tail, Single, Some(w + [c]), done)
  {
    if c == '\'' {
      ScanEscapedQuote(tail, w, done);
    } else {
      ScanEscapedPlain(c, tail, w, done);
    }
  }

  lemma EscapedHead(s: string, rest: string)
    requires s != []
    ensures EscapeQuotes(s) + "'" + rest
         == EscapeQuote(s[0]) + (EscapeQuotes(s[1..]) + "'" + rest)
  {}

  lemma ScanCloseQuote(rest: string, w: string, done: seq<string>)
    ensures Scan(EscapeQuotes([]) + "'" + rest, Single, Some(w), done) == Scan(rest, Plain, Some(w), done)
  {
    var whole := EscapeQuotes([]) + "'" + rest;
    assert whole == "'" + rest && whole[1..] == rest;
  }

  lemma ScanEscapedPlain(c: char, tail: string, w: string, done: seq<string>)
    requires c != '\''
    ensures Scan([c] + tail, Single, Some(w), done) == Scan(tail, Single, Some(w + [c]), done)
  {
    assert ([c] + tail)[1..] == tail;
  }

  lemma ScanEscapedQuote(tail: string, w: string, done: seq<string>)
    ensures Scan("'\\''" + tail, Single, Some(w), done) == Scan(tail, Single, Some(w + ['\'']), done)
  {
    var s := "'\\''" + tail;
    assert s[1..] == "\\''" + tail;
    assert ("\\''" + tail)[1..] == "''" + tail;
    assert ("''" + tail)[1..] == "'" + tail;
    assert ("'" + tail)[1..] == tail;
    assert Scan(s, Single, Some(w), done) == Scan("\\''" + tail, Plain, Some(w), done);
    assert Scan("\\''" + tail, Plain, Some(w), done) == Scan("'" + tail, Plain, Some(w + ['\'']), done);
  }

  lemma ScanFirst(c: char, rest: string, done: seq<string>)
    requires Safe(c)
    ensures Scan([c] + rest, Plain, None, done) == Scan(rest, Plain, Some([c]), done)
  {
    assert ([c] + rest)[1..] == rest;
    assert "" + [c] == [c];
  }

  lemma ScanOpenQuote(body: string, done: seq<string>)
    ensures Scan("'" + body, Plain, None, done) == Scan(body, Single, Some(""), done)
  {
    assert ("'" + body)[1..] == body;
  }

  lemma ScanBare(a: string, rest: string, done: seq<string>)
    requires a != "" && AllSafe(a)
    ensures Scan(a + rest, Plain, None, done) == Scan(rest, Plain, Some(a), done)
  {
    assert a + rest == [a[0]] + (a[1..] + rest);
    ScanFirst(a[0], a[1..] + rest, done);
    ScanSafe(a[1..], rest, [a[0]], done);
    assert [a[0]] + a[1..] == a;
  }

  lemma ScanQuoted(a: string, rest: string, done: seq<string>)
    ensures Scan(Quoted(a) + rest, Plain, None, done) == Scan(rest, Plain, Some(a), done)
  {
    if a != "" && AllSafe(a) {
      ScanBare(a, rest, done);
    } else {
      assert EscapeQuotes("") == "";
      assert Quoted(a) + rest == "'" + (EscapeQuotes(a) + "'" + rest);
      ScanOpenQuote(EscapeQuotes(a) + "'" + rest, done);
      ScanEscaped(a, rest, "", done);
      assert "" + a == a;
    }
  }

  lemma ScanWord(a: string, rest: string, done: seq<string>)
    ensures Scan(Quoted(a) + (" " + rest), Plain, None, done) == Scan(rest, Plain, None, done + [a])
  {
    ScanQuoted(a, " " + rest, done);
    assert (" " + rest)[1..] == rest;
  }

  lemma ScanLast(a: string, done: seq<string>)
    ensures Scan(Quoted(a), Plain, None, done) == Some(done + [a])
  {
    ScanQuoted(a, "", done);
    assert Quoted(a) + "" == Quoted(a);
  }

  lemma JoinedHead(args: seq<string>)
    ensures |args| == 1 ==> Joined(QuotedAll(args)) == Quoted(args[0])
    ensures |args| > 1 ==>
      Joined(QuotedAll(args)) == Quoted(args[0]) + (" " + Joined(QuotedAll(args[1..])))
  {
    if |args| > 1 {
      assert QuotedAll(args)[1..] == QuotedAll(args[1..]);
    }
  }

  lemma {:induction false} ScanJoined(args: seq<string>, done: seq<string>)
    ensures Scan(Joined(QuotedAll(args)), Plain, None, done) == Some(done + args)
    decreases |args|
  {
    JoinedHead(args);
    if args == [] {
      assert done + args == done;
    } else if |args| == 1 {
      ScanLast(args[0], done);
      assert args == [args[0]];
    } else {
      ScanWord(args[0], Joined(QuotedAll(args[1..])), done);
      ScanJoined(args[1..], done + [args[0]]);
      assert done + [args[0]] + args[1..] == done + args;
    }
  }

  /** The shell splits the joined command back into exactly the arguments, and
      meets nothing special outside quotes. */
  lemma SplitJoined(args: seq<string>)
    ensures Split(Joined(QuotedAll(args))) == Some(args)
  {
    ScanJoined(args, []);
    assert [] + args == args;
  }

  /** Different argument vectors give different commands. */
  lemma JoinedInjective(a: seq<string>, b: seq<string>)
    requires Joined(QuotedAll(a)) == Joined(QuotedAll(b))
    ensures a == b
  {
    SplitJoined(a);
    SplitJoined(b);
  }
}
