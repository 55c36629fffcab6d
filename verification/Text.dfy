/** Go's string helpers: trimming white space, cutting and splitting, decimals. */
module Text {
  import opened Optional

  /** unicode.IsSpace. */
  predicate IsSpace(c: char) {
    var v := c as int;
    9 <= v <= 13 || v == 32 || v == 0x85 || v == 0xA0 || v == 0x1680 || 0x2000 <= v <= 0x200a
    || v == 0x2028 || v == 0x2029 || v == 0x202f || v == 0x205f || v == 0x3000
  }

  function TrimLeft(s: string): string {
    if s != [] && IsSpace(s[0]) then TrimLeft(s[1..]) else s
  }

  function TrimRight(s: string): string {
    if s != [] && IsSpace(s[|s| - 1]) then TrimRight(s[..|s| - 1]) else s
  }

  function TrimSpace(s: string): string {
    TrimRight(TrimLeft(s))
  }

  /** No white space at either end. */
  predicate Trim(s: string) {
    s == [] || (!IsSpace(s[0]) && !IsSpace(s[|s| - 1]))
  }

  lemma TrimmedIsKept(s: string)
    requires Trim(s)
    ensures TrimSpace(s) == s
  {}

  lemma {:induction false} TrimLeftMeaning(s: string)
    ensures var t := TrimLeft(s);
      && (t == [] || !IsSpace(t[0]))
      && |t| <= |s| && t == s[|s| - |t|..]
    decreases |s|
  {
    if s != [] && IsSpace(s[0]) {
      TrimLeftMeaning(s[1..]);
    }
  }

  lemma {:induction false} TrimRightMeaning(s: string)
    ensures var t := TrimRight(s);
      t <= s && (t == [] || !IsSpace(t[|t| - 1]))
    decreases |s|
  {
    if s != [] && IsSpace(s[|s| - 1]) {
      TrimRightMeaning(s[..|s| - 1]);
    }
  }

  /** The result is trimmed and has no character the argument lacks. */
  lemma TrimSpaceMeaning(s: string)
    ensures Trim(TrimSpace(s)) && forall c | c in TrimSpace(s) :: c in s
  {
    TrimLeftMeaning(s);
    TrimRightMeaning(TrimLeft(s));
    var t, u := TrimSpace(s), TrimLeft(s);
    assert t == u[..|t|];
    assert forall i | 0 <= i < |t| :: t[i] == s[|s| - |u| + i];
  }

  predicate AllSpace(s: string) {
    forall i | 0 <= i < |s| :: IsSpace(s[i])
  }

  /** Nothing but white space is taken away, and all of it at both ends. */
  lemma TrimSpaceCuts(s: string) returns (before: string, after: string)
    ensures s == before + TrimSpace(s) + after && AllSpace(before) && AllSpace(after) && Trim(TrimSpace(s))
  {
    TrimSpaceMeaning(s);
    before := LeftCut(s);
    after := RightCut(TrimLeft(s));
    assert s == before + (TrimSpace(s) + after);
  }

  lemma {:induction false} LeftCut(s: string) returns (a: string)
    ensures s == a + TrimLeft(s) && AllSpace(a)
    decreases |s|
  {
    a := "";
    if s != [] && IsSpace(s[0]) {
      a := LeftCut(s[1..]);
      assert s == [s[0]] + s[1..];
      a := [s[0]] + a;
    }
  }

  lemma {:induction false} RightCut(s: string) returns (b: string)
    ensures s == TrimRight(s) + b && AllSpace(b)
    decreases |s|
  {
    b := "";
    if s != [] && IsSpace(s[|s| - 1]) {
      b := RightCut(s[..|s| - 1]);
      assert s == s[..|s| - 1] + [s[|s| - 1]];
      b := b + [s[|s| - 1]];
    }
  }

  lemma {:induction false} TrimLeftPad(a: string, s: string)
    requires AllSpace(a)
    ensures TrimLeft(a + s) == TrimLeft(s)
    decreases |a|
  {
    if a == "" {
      assert a + s == s;
    } else {
      assert (a + s)[1..] == a[1..] + s;
      TrimLeftPad(a[1..], s);
    }
  }

  lemma {:induction false} TrimRightPad(s: string, b: string)
    requires AllSpace(b)
    ensures TrimRight(s + b) == TrimRight(s)
    decreases |b|
  {
    if b == "" {
      assert s + b == s;
    } else {
      assert (s + b)[..|s + b| - 1] == s + b[..|b| - 1];
      TrimRightPad(s, b[..|b| - 1]);
    }
  }

  /** Padding makes no difference. */
  lemma TrimPadded(a: string, s: string, b: string)
    requires AllSpace(a) && AllSpace(b)
    ensures TrimSpace(a + s + b) == TrimSpace(s)
  {
    assert a + s + b == a + (s + b);
    TrimLeftPad(a, s + b);
    var u := LeftCut(s);
    if TrimLeft(s) == "" {
      assert s + b == u + b && AllSpace(u + b) && u + b + "" == u + b;
      TrimLeftPad(u + b, "");
    } else {
      TrimLeftMeaning(s);
      assert s + b == u + (TrimLeft(s) + b);
      TrimLeftPad(u, TrimLeft(s) + b);
      TrimRightPad(TrimLeft(s), b);
    }
  }

  lemma TrimPadLeft(a: string, s: string)
    requires AllSpace(a)
    ensures TrimSpace(a + s) == TrimSpace(s)
  {
    assert a + s + "" == a + s;
    TrimPadded(a, s, "");
  }

  lemma TrimPadRight(s: string, b: string)
    requires AllSpace(b)
    ensures TrimSpace(s + b) == TrimSpace(s)
  {
    assert "" + s + b == s + b;
    TrimPadded("", s, b);
  }

  lemma TrimEmptyIff(s: string)
    ensures TrimSpace(s) == "" <==> AllSpace(s)
  {
    var a, b := TrimSpaceCuts(s);
    if AllSpace(s) {
      assert s + "" + "" == s;
      TrimPadded(s, "", "");
    }
  }

  /** The first position of a character, or the length. */
  function Index(s: string, c: char): (i: nat)
    ensures i <= |s| && c !in s[..i] && (i < |s| ==> s[i] == c) && (i < |s| <==> c in s)
  {
    if s == [] || s[0] == c then 0 else 1 + Index(s[1..], c)
  }

  lemma IndexOf(a: string, c: char, b: string)
    requires c !in a
    ensures Index(a + [c] + b, c) == |a|
  {
    var s := a + [c] + b;
    assert s[|a|] == c;
    var i := Index(s, c);
    assert forall k | 0 <= k < i :: s[k] == s[..i][k] && s[k] != c;
    assert forall k | 0 <= k < |a| :: s[k] == a[k] && a[k] != c;
  }

  function Split(s: string, c: char): (parts: seq<string>)
    ensures |parts| > 0
    decreases |s|
  {
    var i := Index(s, c);
    if i == |s| then [s] else [s[..i]] + Split(s[i + 1..], c)
  }

  function Join(parts: seq<string>, c: char): string {
    if parts == [] then [] else if |parts| == 1 then parts[0] else parts[0] + [c] + Join(parts[1..], c)
  }

  lemma SplitFirst(a: string, c: char, b: string)
    requires c !in a
    ensures Split(a + [c] + b, c) == [a] + Split(b, c)
  {
    IndexOf(a, c, b);
    var s := a + [c] + b;
    assert s[..|a|] == a && s[|a| + 1..] == b;
  }

  lemma Associative(a: seq<string>, b: seq<string>, c: seq<string>)
    ensures a + (b + c) == (a + b) + c
  {}

  lemma SplitCons(head: string, c: char, tail: string, longer: string, b: string)
    requires c !in head && Split(longer, c) == Split(tail, c) + Split(b, c)
    ensures Split(head + [c] + longer, c) == Split(head + [c] + tail, c) + Split(b, c)
  {
    SplitFirst(head, c, longer);
    SplitFirst(head, c, tail);
    Associative([head], Split(tail, c), Split(b, c));
  }

  lemma {:induction false} SplitAppend(a: string, c: char, b: string)
    ensures Split(a + [c] + b, c) == Split(a, c) + Split(b, c)
    decreases |a|
  {
    var i := Index(a, c);
    if i == |a| {
      SplitFirst(a, c, b);
    } else {
      var head, tail := a[..i], a[i + 1..];
      assert a == head + [c] + tail;
      assert a + [c] + b == head + [c] + (tail + [c] + b);
      SplitAppend(tail, c, b);
      SplitCons(head, c, tail, tail + [c] + b, b);
    }
  }

  lemma {:induction false} SplitJoin(parts: seq<string>, c: char)
    requires parts != [] && forall p | p in parts :: c !in p
    ensures Split(Join(parts, c), c) == parts
    decreases |parts|
  {
    if |parts| > 1 {
      assert parts[0] in parts;
      SplitFirst(parts[0], c, Join(parts[1..], c));
      SplitJoin(parts[1..], c);
      assert parts == [parts[0]] + parts[1..];
    } else {
      assert parts[0] in parts;
    }
  }

  lemma {:induction false} SplitLacks(s: string, c: char)
    ensures forall p | p in Split(s, c) :: c !in p
    decreases |s|
  {
    var i := Index(s, c);
    if i < |s| {
      SplitLacks(s[i + 1..], c);
    }
  }

  // ---- decimals ----

  const INT64_LIMIT: int := 0x8000_0000_0000_0000

  predicate Digits(s: string) {
    s != [] && forall i | 0 <= i < |s| :: '0' <= s[i] <= '9'
  }

  function Value(s: string): nat
    requires forall i | 0 <= i < |s| :: '0' <= s[i] <= '9'
  {
    if s == [] then 0 else Value(s[..|s| - 1]) * 10 + (s[|s| - 1] as int - '0' as int)
  }

  /** strconv.ParseInt(s, 10, 64). */
  function ParseInt(s: string): (r: Option<int>)
    ensures r.Some? ==> -INT64_LIMIT <= r.value < INT64_LIMIT
  {
    if s == "" then None
    else
      var negative := s[0] == '-';
      var body := if s[0] == '-' || s[0] == '+' then s[1..] else s;
      if !Digits(body) then None
      else
        var m: int := Value(body);
        var v := if negative then -m else m;
        if -INT64_LIMIT <= v < INT64_LIMIT then Some(v) else None
  }

  /** Exactly the decimal numbers with at most one sign are accepted, if they fit. */
  lemma ParseIntMeaning(sign: string, digits: string)
    requires sign in {"", "+", "-"} && Digits(digits)
    ensures var n: int := Value(digits); var v := if sign == "-" then -n else n;
      ParseInt(sign + digits) == if -INT64_LIMIT <= v < INT64_LIMIT then Some(v) else None
  {
    var s := sign + digits;
    assert '0' <= digits[0] <= '9';
    if sign == "" {
      assert s == digits;
    } else {
      assert s[0] == sign[0] && s[1..] == digits;
    }
  }

  lemma ParseIntOnly(s: string) returns (sign: string, digits: string)
    requires ParseInt(s).Some?
    ensures s == sign + digits && sign in {"", "+", "-"} && Digits(digits)
  {
    if s[0] == '-' || s[0] == '+' {
      sign, digits := s[..1], s[1..];
      assert sign == [s[0]];
    } else {
      sign, digits := "", s;
    }
  }

  /** The value of a number is that of its digits in base ten. */
  lemma ValueOf(digits: string, d: char)
    requires (forall i | 0 <= i < |digits| :: '0' <= digits[i] <= '9') && '0' <= d <= '9'
    ensures Value("") == 0 && Value(digits + [d]) == 10 * Value(digits) + (d as int - '0' as int)
  {
    assert (digits + [d])[..|digits|] == digits;
  }

  function Print(n: nat): string {
    if n < 10 then [('0' as int + n) as char] else Print(n / 10) + [('0' as int + n % 10) as char]
  }

  lemma {:induction false} PrintValue(n: nat)
    ensures Digits(Print(n)) && Value(Print(n)) == n
    decreases n
  {
    if n >= 10 {
      PrintValue(n / 10);
      assert Print(n)[..|Print(n)| - 1] == Print(n / 10);
    } else {
      assert Print(n)[..0] == [];
    }
  }

  lemma DigitsParse(s: string)
    requires Digits(s)
    ensures ParseInt(s) == if Value(s) < INT64_LIMIT then Some(Value(s)) else None
    ensures Trim(s) && TrimSpace(s) == s && '-' !in s && ',' !in s
  {
    assert '0' <= s[0] <= '9' && '0' <= s[|s| - 1] <= '9';
    TrimmedIsKept(s);
  }
}
