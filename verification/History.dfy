/** The size-capped history file: one JSON entry per line, oldest first. */
module History {
  import opened Optional
  import opened Text

  const DEFAULT_MAX_SIZE: int := 5 * 1024 * 1024

  // ---- lines ----

  /** The lines of `s`, given that `cur` of the first one has been read already; a
      last line without newline counts unless it is empty. */
  function LinesFrom(s: string, cur: string): seq<string>
    decreases |s|
  {
    if s == [] then (if cur == [] then [] else [cur])
    else if s[0] == '\n' then [cur] + LinesFrom(s[1..], [])
    else LinesFrom(s[1..], cur + [s[0]])
  }

  function Lines(s: string): seq<string> {
    LinesFrom(s, [])
  }

  function Unlines(lines: seq<string>): string {
    if lines == [] then [] else lines[0] + ['\n'] + Unlines(lines[1..])
  }

  /** Bytes of the lines with their newlines. */
  function Size(lines: seq<string>): nat {
    if lines == [] then 0 else |lines[0]| + 1 + Size(lines[1..])
  }

  method SplitLines(s: string) returns (lines: seq<string>)
    ensures lines == Lines(s)
  {
    lines := [];
    var start := 0;
    for i := 0 to |s|
      invariant 0 <= start <= i
      invariant Lines(s) == lines + LinesFrom(s[i..], s[start..i])
    {
      assert s[i..][1..] == s[i + 1..];
      if s[i] == '\n' {
        lines := lines + [s[start..i]];
        start := i + 1;
        assert s[start..i + 1] == [];
      } else {
        assert s[start..i] + [s[i]] == s[start..i + 1];
      }
    }
    if start < |s| {
      lines := lines + [s[start..]];
    }
    assert s[|s|..] == [] && s[start..|s|] == s[start..];
  }

  /** The longest tail that fits, but never less than the last line. */
  function Tail(lines: seq<string>, cap: int): seq<string> {
    if |lines| <= 1 || Size(lines) <= cap then lines else Tail(lines[1..], cap)
  }

  function Trimmed(content: string, cap: int): string {
    if |content| <= cap then content else Unlines(Tail(Lines(content), cap))
  }

  method TailSize(lines: seq<string>, from: nat) returns (total: nat)
    requires from <= |lines|
    ensures total == Size(lines[from..])
  {
    total := 0;
    for i := from to |lines|
      invariant total + Size(lines[i..]) == Size(lines[from..])
    {
      assert lines[i..][1..] == lines[i + 1..];
      total := total + |lines[i]| + 1;
    }
  }

  method Concatenated(lines: seq<string>) returns (out: string)
    ensures out == Unlines(lines)
  {
    out := "";
    for i := 0 to |lines|
      invariant out + Unlines(lines[i..]) == Unlines(lines)
    {
      assert lines[i..][1..] == lines[i + 1..];
      assert out + (lines[i] + ['\n'] + Unlines(lines[i + 1..])) == out + lines[i] + ['\n'] + Unlines(lines[i + 1..]);
      out := out + lines[i] + ['\n'];
    }
    assert out + [] == out;
  }

  function Max(a: nat, b: nat): nat { if a < b then b else a }

  lemma NonEmptyLines(s: string)
    ensures s != "" ==> Lines(s) != []
  {
    if s != "" { SomeLine(s, []); }
  }

  lemma {:induction false} SomeLine(s: string, cur: string)
    requires s != [] || cur != []
    ensures LinesFrom(s, cur) != []
    decreases |s|
  {
    if s != [] && s[0] != '\n' {
      SomeLine(s[1..], cur + [s[0]]);
    }
  }

  function Appended(content: string, entry: string, cap: int, written: bool): string {
    var longer := content + entry + "\n";
    if written then Trimmed(longer, cap) else longer
  }

  lemma TailStep(lines: seq<string>, keep: nat, cap: int)
    requires 1 < keep <= |lines| && Size(lines[|lines| - keep..]) > cap
    ensures Tail(lines[|lines| - keep..], cap) == Tail(lines[|lines| - (keep - 1)..], cap)
  {
    assert lines[|lines| - keep..][1..] == lines[|lines| - (keep - 1)..];
  }

  /** Whether the file opens, how many bytes of the line are written, whether it
      closes, and whether the trimmed copy can be put in its place. */
  datatype AppendIo = AppendIo(opens: bool, sent: nat, closes: bool, trims: bool)

  datatype TrimResult = Fits | Failed | Panics

  function Prefix(s: string, n: nat): string {
    if n < |s| then s[..n] else s
  }

  class HistoryFile {
    var content: string

    constructor ()
      ensures content == ""
    {
      content := "";
    }

    /** Rewrites the file through a temporary one; `written` says whether that
        succeeds. A negative cap on an empty file slices out of range. */
    method TrimBySize(cap: int, written: bool) returns (r: TrimResult)
      modifies this
      ensures r == if old(content) == "" && cap < 0 then Panics
                   else if written || |old(content)| <= cap then Fits else Failed
      ensures content == if r == Fits then Trimmed(old(content), cap) else old(content)
    {
      var raw := content;
      if |raw| <= cap {
        return Fits;
      }
      if raw == "" {
        return Panics;
      }
      var lines := SplitLines(raw);
      NonEmptyLines(raw);
      var keep := |lines|;
      assert lines[0..] == lines;
      while keep > 0
        invariant 0 <= keep <= |lines| && content == raw
        invariant Tail(lines, cap) == Tail(lines[|lines| - Max(keep, 1)..], cap)
      {
        var total := TailSize(lines, |lines| - keep);
        if total <= cap {
          break;
        }
        if keep > 1 { TailStep(lines, keep, cap); }
        keep := keep - 1;
      }
      if keep == 0 {
        keep := 1;
      }
      var out := Concatenated(lines[|lines| - keep..]);
      if !written {
        return Failed;
      }
      content := out;
      return Fits;
    }

    /** Appends one entry and trims, best effort. A write that fails may leave a
        part of the line, and then nothing is trimmed. */
    method Append(entry: string, cap: int, io: AppendIo) returns (ok: bool)
      modifies this
      ensures ok <==> io.opens && io.sent > |entry| && io.closes
      ensures ok ==> content == Appended(old(content), entry, cap, io.trims)
      ensures !ok ==> content == old(content) + (if io.opens then Prefix(entry + "\n", io.sent) else "")
    {
      if !io.opens {
        return false;
      }
      content := content + Prefix(entry + "\n", io.sent);
      if io.sent <= |entry| || !io.closes {
        return false;
      }
      assert content == old(content) + entry + "\n";
      var trimmed := TrimBySize(cap, io.trims);
      return true;
    }
  }

  // ---- trimming ----

  /** Tail keeps the longest tail within the cap, or the last line alone if no
      tail fits. */
  lemma {:induction false} TrimIsLongest(lines: seq<string>, cap: int)
    ensures var t := Tail(lines, cap);
      && |t| <= |lines| && t == lines[|lines| - |t|..] && (lines != [] ==> t != [])
      && (Size(t) <= cap || |t| <= 1)
      && forall k | 0 <= k < |lines| - |t| :: Size(lines[k..]) > cap
    decreases |lines|
  {
    if |lines| > 1 && Size(lines) > cap {
      TrimIsLongest(lines[1..], cap);
      var t := Tail(lines, cap);
      forall k | 0 <= k < |lines| - |t|
        ensures Size(lines[k..]) > cap
      {
        if k > 0 {
          assert lines[k..] == lines[1..][k - 1..];
        }
      }
    }
  }

  lemma {:induction false} TrimTwice(lines: seq<string>, cap: int)
    ensures Tail(Tail(lines, cap), cap) == Tail(lines, cap)
    decreases |lines|
  {
    if |lines| > 1 && Size(lines) > cap {
      TrimTwice(lines[1..], cap);
    }
  }

  lemma {:induction false} SizeAppend(a: seq<string>, b: seq<string>)
    ensures Size(a + b) == Size(a) + Size(b)
    decreases |a|
  {
    if a == [] {
      assert a + b == b;
    } else {
      SizeAppend(a[1..], b);
      assert (a + b)[1..] == a[1..] + b;
    }
  }

  /** Trimming before an append makes no difference to trimming after it. */
  lemma {:induction false} TrimSnoc(lines: seq<string>, e: string, cap: int)
    ensures Tail(lines + [e], cap) == Tail(Tail(lines, cap) + [e], cap)
    decreases |lines|
  {
    if |lines| > 1 && Size(lines) > cap {
      SizeAppend(lines, [e]);
      TrimSnoc(lines[1..], e, cap);
      assert (lines + [e])[1..] == lines[1..] + [e];
    }
  }

  // ---- text and lines ----

  lemma {:induction false} LinesOfOne(l: string, rest: string, cur: string)
    requires '\n' !in l
    ensures LinesFrom(l + ['\n'] + rest, cur) == [cur + l] + LinesFrom(rest, [])
    decreases |l|
  {
    var s := l + ['\n'] + rest;
    if l == [] {
      assert s == ['\n'] + rest && s[1..] == rest;
      assert cur + l == cur;
    } else {
      assert s[0] == l[0] && l[0] in l && s[1..] == l[1..] + ['\n'] + rest;
      LinesOfOne(l[1..], rest, cur + [l[0]]);
      assert cur + [l[0]] + l[1..] == cur + l;
    }
  }

  ghost predicate Clean(lines: seq<string>) {
    forall l | l in lines :: '\n' !in l
  }

  lemma {:induction false} LinesUnlines(lines: seq<string>)
    requires Clean(lines)
    ensures Lines(Unlines(lines)) == lines && |Unlines(lines)| == Size(lines)
    decreases |lines|
  {
    if lines != [] {
      assert lines[0] in lines;
      LinesUnlines(lines[1..]);
      LinesOfOne(lines[0], Unlines(lines[1..]), []);
      assert [] + lines[0] == lines[0];
      assert lines == [lines[0]] + lines[1..];
    }
  }

  lemma {:induction false} UnlinesSnoc(lines: seq<string>, e: string)
    ensures Unlines(lines + [e]) == Unlines(lines) + e + "\n"
    decreases |lines|
  {
    if lines == [] {
      assert lines + [e] == [e] && [e][1..] == [];
      assert [] + e == e;
    } else {
      UnlinesSnoc(lines[1..], e);
      assert (lines + [e])[1..] == lines[1..] + [e];
      assert lines[0] + ['\n'] + (Unlines(lines[1..]) + e + "\n") == lines[0] + ['\n'] + Unlines(lines[1..]) + e + "\n";
    }
  }

  /** A last line without newline is read as a line of its own. */
  lemma {:induction false} LinesUnterminated(lines: seq<string>, last: string)
    requires Clean(lines) && '\n' !in last && last != ""
    ensures Lines(Unlines(lines) + last) == lines + [last]
    decreases |lines|
  {
    if lines == [] {
      assert Unlines(lines) + last == last;
      LinesOfLast(last, []);
      assert [] + last == last;
    } else {
      assert lines[0] in lines;
      LinesUnterminated(lines[1..], last);
      assert Unlines(lines) + last == lines[0] + ['\n'] + (Unlines(lines[1..]) + last);
      LinesOfOne(lines[0], Unlines(lines[1..]) + last, []);
      assert [] + lines[0] == lines[0] && lines + [last] == [lines[0]] + (lines[1..] + [last]);
    }
  }

  lemma {:induction false} LinesOfLast(l: string, cur: string)
    requires '\n' !in l && l + cur != ""
    ensures LinesFrom(l, cur) == [cur + l]
    decreases |l|
  {
    if l == "" {
      assert cur + l == cur;
    } else {
      assert l[0] in l;
      LinesOfLast(l[1..], cur + [l[0]]);
      assert cur + [l[0]] + l[1..] == cur + l;
    }
  }

  lemma TrimmedUnlines(lines: seq<string>, cap: int)
    requires Clean(lines)
    ensures Trimmed(Unlines(lines), cap) == Unlines(Tail(lines, cap))
  {
    LinesUnlines(lines);
  }

  /** Trimming a file again changes nothing, whatever the file is. */
  lemma TrimFileTwice(content: string, cap: int)
    ensures Trimmed(Trimmed(content, cap), cap) == Trimmed(content, cap)
  {
    if |content| > cap {
      var lines := Lines(content);
      LinesClean(content, []);
      TrimIsLongest(lines, cap);
      TrimTwice(lines, cap);
      TrimmedUnlines(Tail(lines, cap), cap);
    }
  }

  lemma {:induction false} LinesClean(s: string, cur: string)
    requires '\n' !in cur
    ensures Clean(LinesFrom(s, cur))
    decreases |s|
  {
    if s != [] {
      if s[0] == '\n' {
        LinesClean(s[1..], []);
      } else {
        LinesClean(s[1..], cur + [s[0]]);
      }
    }
  }

  // ---- sequences of appends ----

  datatype Event = Event(entry: string, cap: int, written: bool)

  function Run(content: string, events: seq<Event>): string
    decreases |events|
  {
    if events == [] then content
    else
      var e := events[|events| - 1];
      Appended(Run(content, events[..|events| - 1]), e.entry, e.cap, e.written)
  }

  function Entries(events: seq<Event>): seq<string> {
    seq(|events|, i requires 0 <= i < |events| => events[i].entry)
  }

  lemma EntriesSnoc(events: seq<Event>)
    requires events != [] && Clean(Entries(events))
    ensures var n := |events| - 1;
      && Entries(events) == Entries(events[..n]) + [events[n].entry]
      && Clean(Entries(events[..n])) && '\n' !in events[n].entry
  {
    var n := |events| - 1;
    var before, e := Entries(events[..n]), events[n].entry;
    assert Entries(events) == before + [e];
    assert forall l | l in before :: l in Entries(events);
    assert Entries(events)[n] == e;
  }

  /** The file always is a tail of everything that was ever in it or appended to
      it, ends with the newest entry, and is within the cap of the last append
      whose rewrite succeeded, unless it is that one entry. */
  lemma {:induction false} RunIsTail(lines: seq<string>, events: seq<Event>)
    returns (dropped: seq<string>, kept: seq<string>)
    requires Clean(lines) && Clean(Entries(events))
    ensures Run(Unlines(lines), events) == Unlines(kept) && Clean(kept)
    ensures lines + Entries(events) == dropped + kept
    ensures events != [] ==> kept != []
    ensures events != [] && events[|events| - 1].written ==>
      Size(kept) <= events[|events| - 1].cap || |kept| == 1
    decreases |events|
  {
    if events == [] {
      dropped, kept := [], lines;
      assert lines + Entries(events) == dropped + kept;
    } else {
      var n := |events| - 1;
      EntriesSnoc(events);
      var d, before := RunIsTail(lines, events[..n]);
      var more;
      more, kept := AppendKeepsTail(before, events[n]);
      dropped := d + more;
      Regroup(lines, Entries(events[..n]), d, before, events[n].entry, more, kept);
    }
  }

  lemma Regroup(a: seq<string>, b: seq<string>, d: seq<string>, c: seq<string>, e: string, m: seq<string>, k: seq<string>)
    requires a + b == d + c && c + [e] == m + k
    ensures a + (b + [e]) == d + m + k
  {
    assert a + (b + [e]) == (a + b) + [e] == d + (c + [e]) == d + (m + k) == d + m + k;
  }

  lemma AppendKeepsTail(before: seq<string>, e: Event) returns (dropped: seq<string>, kept: seq<string>)
    requires Clean(before) && '\n' !in e.entry
    ensures Appended(Unlines(before), e.entry, e.cap, e.written) == Unlines(kept) && Clean(kept)
    ensures before + [e.entry] == dropped + kept && kept != []
    ensures e.written ==> Size(kept) <= e.cap || |kept| == 1
  {
    var longer := before + [e.entry];
    UnlinesSnoc(before, e.entry);
    if e.written {
      TrimmedUnlines(longer, e.cap);
      dropped, kept := CutTail(longer, e.cap);
    } else {
      dropped, kept := [], longer;
    }
  }

  lemma CutTail(lines: seq<string>, cap: int) returns (dropped: seq<string>, kept: seq<string>)
    requires lines != [] && Clean(lines)
    ensures kept == Tail(lines, cap) && lines == dropped + kept && kept != [] && Clean(kept)
    ensures Size(kept) <= cap || |kept| == 1
  {
    TrimIsLongest(lines, cap);
    kept := Tail(lines, cap);
    dropped := lines[..|lines| - |kept|];
  }

  /** Under one cap, trimming along the way is invisible: whatever trims failed
      before, after a successful one the file is the trim of the whole history. */
  lemma {:induction false} TrimmingCommutes(lines: seq<string>, events: seq<Event>, cap: int) returns (kept: seq<string>)
    requires Clean(lines) && Clean(Entries(events))
    requires forall e | e in events :: e.cap == cap
    ensures Run(Unlines(lines), events) == Unlines(kept) && Clean(kept)
    ensures Tail(kept, cap) == Tail(lines + Entries(events), cap)
    ensures events != [] && events[|events| - 1].written ==> kept == Tail(lines + Entries(events), cap)
    decreases |events|
  {
    if events == [] {
      kept := lines;
      assert lines + Entries(events) == lines;
    } else {
      var n := |events| - 1;
      var e := events[n];
      assert e in events;
      EntriesSnoc(events);
      var before := TrimmingCommutes(lines, events[..n], cap);
      assert lines + Entries(events) == lines + Entries(events[..n]) + [e.entry];
      UnlinesSnoc(before, e.entry);
      var longer := before + [e.entry];
      TrimSnoc(before, e.entry, cap);
      TrimSnoc(lines + Entries(events[..n]), e.entry, cap);
      if e.written {
        TrimmedUnlines(longer, cap);
        kept := Tail(longer, cap);
        TrimTwice(longer, cap);
        TrimIsLongest(longer, cap);
      } else {
        kept := longer;
      }
    }
  }

  // ---- the configured cap ----

  /** 64-bit two's complement. */
  function Wrap(n: int): int {
    (n + INT64_LIMIT) % (2 * INT64_LIMIT) - INT64_LIMIT
  }

  function Multiplier(c: char): int {
    if c in {'G', 'g'} then 1024 * 1024 * 1024
    else if c in {'M', 'm'} then 1024 * 1024
    else if c in {'K', 'k'} then 1024 else 1
  }

  function ParseSize(text: string): int {
    var s := TrimSpace(text);
    if s == "" then DEFAULT_MAX_SIZE
    else
      var mult := Multiplier(s[|s| - 1]);
      var number := if mult == 1 then s else s[..|s| - 1];
      match ParseInt(TrimSpace(number))
      case None => DEFAULT_MAX_SIZE
      case Some(n) => if n <= 0 then DEFAULT_MAX_SIZE else Wrap(n * mult)
  }

  lemma SizeIsProduct(n: nat, unit: char)
    requires 0 < n < INT64_LIMIT && Multiplier(unit) > 1
    ensures ParseSize(Print(n) + [unit]) == Wrap(n * Multiplier(unit))
  {
    var s := Print(n) + [unit];
    PrintValue(n);
    DigitsParse(Print(n));
    assert s[0] == Print(n)[0] && s[|s| - 1] == unit && s[..|s| - 1] == Print(n);
    assert !IsSpace(unit) && !IsSpace(s[0]);
    TrimmedIsKept(s);
  }

  lemma UnitSizes()
    ensures Multiplier('k') == Multiplier('K') == 1024
    ensures Multiplier('m') == Multiplier('M') == 1024 * 1024
    ensures Multiplier('g') == Multiplier('G') == 1024 * 1024 * 1024
  {}

  /** A plain number that fits 64 bits is itself, and one that does not is as good as
      none; so is zero. */
  lemma PlainSize(digits: string)
    requires Digits(digits)
    ensures ParseSize(digits) == if 0 < Value(digits) < INT64_LIMIT then Value(digits) else DEFAULT_MAX_SIZE
  {
    DigitsParse(digits);
    NoUnit(digits[|digits| - 1]);
    NumberSize(digits, Value(digits));
  }

  lemma NoUnit(c: char)
    requires '0' <= c <= '9'
    ensures Multiplier(c) == 1
  {}

  lemma NumberSize(digits: string, v: nat)
    requires digits != "" && TrimSpace(digits) == digits && Multiplier(digits[|digits| - 1]) == 1
    requires ParseInt(digits) == if v < INT64_LIMIT then Some(v) else None
    ensures ParseSize(digits) == if 0 < v < INT64_LIMIT then v else DEFAULT_MAX_SIZE
  {
    WrapFits(v);
    assert v * 1 == v;
  }

  /** White space around the number, the unit or the whole is ignored, and a text that
      is no number with at most one unit stands for the default. */
  lemma PaddedSize(w1: string, digits: string, w2: string, unit: char, w3: string)
    requires AllSpace(w1) && AllSpace(w2) && AllSpace(w3) && Digits(digits)
    ensures Multiplier(unit) > 1 ==>
      ParseSize(w1 + (digits + w2 + [unit]) + w3) == ParseSize(digits + [unit])
    ensures ParseSize(w1 + digits + w3) == ParseSize(digits)
  {
    DigitsParse(digits);
    TrimPadded(w1, digits, w3);
    if Multiplier(unit) > 1 {
      var core, plain := digits + w2 + [unit], digits + [unit];
      assert !IsSpace(unit) && !IsSpace(digits[0]) && core[0] == digits[0] == plain[0];
      assert core[|core| - 1] == plain[|plain| - 1] == unit;
      assert core[..|core| - 1] == digits + w2 && plain[..|plain| - 1] == digits;
      TrimmedIsKept(core);
      TrimmedIsKept(plain);
      TrimPadded(w1, core, w3);
      TrimPadRight(digits, w2);
    }
  }

  lemma NoSize(text: string)
    requires TrimSpace(text) == "" || TrimSpace(text)[0] !in "+0123456789"
    ensures ParseSize(text) == DEFAULT_MAX_SIZE == 5 * 1024 * 1024
  {
    var s := TrimSpace(text);
    if s != "" {
      TrimSpaceMeaning(text);
      HeadStays(s);
      HeadStays(s[..|s| - 1]);
    }
  }

  /** Trimming what begins with something else than white space leaves that. */
  lemma HeadStays(s: string)
    ensures s != "" && !IsSpace(s[0]) ==> TrimSpace(s) != "" && TrimSpace(s)[0] == s[0]
  {
    if s != "" && !IsSpace(s[0]) {
      TrimRightMeaning(s);
      TrimEmptyIff(s);
    }
  }

  lemma WrapFits(v: nat)
    ensures Wrap(v) == v <==> v < INT64_LIMIT
  {}

  /** A number with a unit is that many kilobytes, megabytes or gigabytes exactly when
      the product fits 64 bits: the multiplication is not checked. */
  lemma SizeWithUnit(n: nat, unit: char, bytes: nat)
    requires 0 < n < INT64_LIMIT
    requires match bytes
      case 0x400 => unit in {'k', 'K'}
      case 0x10_0000 => unit in {'m', 'M'}
      case 0x4000_0000 => unit in {'g', 'G'}
      case _ => false
    ensures ParseSize(Print(n) + [unit]) == n * bytes <==> n * bytes < INT64_LIMIT
  {
    UnitSizes();
    SizeIsProduct(n, unit);
    WrapFits(n * bytes);
  }

  lemma WrapNegative(v: nat)
    ensures Wrap(v) < 0 <==> v % (2 * INT64_LIMIT) >= INT64_LIMIT
  {}

  /** The cap becomes negative exactly when bit 63 of the product is set (8589934592G
      is the least such number of gigabytes), and then only the last entry is kept. */
  lemma CapOverflows(n: nat, unit: char, lines: seq<string>)
    requires 0 < n < INT64_LIMIT && Multiplier(unit) > 1
    ensures var cap := ParseSize(Print(n) + [unit]);
      && (cap < 0 <==> (n * Multiplier(unit)) % (2 * INT64_LIMIT) >= INT64_LIMIT)
      && (cap < 0 && lines != [] ==> Tail(lines, cap) == [lines[|lines| - 1]])
  {
    SizeIsProduct(n, unit);
    WrapNegative(n * Multiplier(unit));
    if lines != [] { OnlyLast(lines, ParseSize(Print(n) + [unit])); }
  }

  lemma OnlyLast(lines: seq<string>, cap: int)
    requires lines != []
    ensures cap < 0 ==> Tail(lines, cap) == [lines[|lines| - 1]]
  {
    TrimIsLongest(lines, cap);
  }
}
