/** Byte ranges of WebDAV GET (section 14.1.2 of RFC 9110). */
module Ranges {
  import opened Optional
  import opened Text

  datatype Range = Range(start: int, end: int)

  const PREFIX: string := "bytes="

  /** `bytes=first-last`, `bytes=first-` or `bytes=-suffix`; only the first of
      several ranges counts. `end` is inclusive. */
  function ParseRange(header: string, size: int): (r: Option<Range>)
    ensures r.Some? ==> 0 <= r.value.start <= r.value.end < size
  {
    ParseSpec(FirstRange(header), size)
  }

  function FirstRange(header: string): string {
    var tail := if PREFIX <= header then header[|PREFIX|..] else header;
    TrimSpace(tail[..Index(tail, ',')])
  }

  function ParseSpec(spec: string, size: int): (r: Option<Range>)
    ensures r.Some? ==> 0 <= r.value.start <= r.value.end < size
  {
    if spec == "" || size <= 0 then None
    else if spec[0] == '-' then ParseSuffix(spec[1..], size)
    else
      var dash := Index(spec, '-');
      if dash == |spec| then None
      else ParseFirstLast(TrimSpace(spec[..dash]), TrimSpace(spec[dash + 1..]), size)
  }

  function ParseSuffix(count: string, size: int): (r: Option<Range>)
    requires size > 0
    ensures r.Some? ==> 0 <= r.value.start <= r.value.end < size
  {
    match ParseInt(count)
    case None => None
    case Some(n) =>
      if n <= 0 then None
      else if n > size then Some(Range(0, size - 1))
      else Some(Range(size - n, size - 1))
  }

  function ParseFirstLast(first: string, last: string, size: int): (r: Option<Range>)
    requires size > 0
    ensures r.Some? ==> 0 <= r.value.start <= r.value.end < size
  {
    match ParseInt(first)
    case None => None
    case Some(start) =>
      if start < 0 || start >= size then None
      else if last == "" then Some(Range(start, size - 1))
      else match ParseInt(last)
        case None => None
        case Some(end) =>
          if end < start then None
          else if end >= size then Some(Range(start, size - 1))
          else Some(Range(start, end))
  }

  // ---- the reference ----

  /** An int-range: unsatisfiable when it starts beyond the end, cut at the end. */
  function IntRange(first: nat, last: nat, size: int): Option<Range> {
    if last < first || first >= size then None
    else Some(Range(first, if last < size then last else size - 1))
  }

  /** A suffix-range: the last `n` bytes, or everything if there are fewer. */
  function SuffixRange(n: nat, size: int): Option<Range> {
    if n == 0 || size <= 0 then None else Some(Range(if n < size then size - n else 0, size - 1))
  }

  lemma SpecOf(spec: string, more: string)
    requires ',' !in spec && (more == "" || more[0] == ',')
    ensures PREFIX <= PREFIX + spec + more && FirstRange(PREFIX + spec + more) == TrimSpace(spec)
  {
    var tail := (PREFIX + spec + more)[|PREFIX|..];
    assert tail == spec + more;
    if more != "" {
      assert tail == spec + [','] + more[1..];
      IndexOf(spec, ',', more[1..]);
    } else {
      assert tail == spec;
    }
    assert tail[..|spec|] == spec;
  }

  lemma FirstLastSpec(a: string, b: string)
    requires Digits(a) && (b == "" || Digits(b))
    ensures var spec := a + "-" + b;
      && Trim(spec) && ',' !in spec && spec[0] != '-'
      && Index(spec, '-') == |a| && spec[..|a|] == a && spec[|a| + 1..] == b
  {
    DigitsParse(a);
    if b != "" { DigitsParse(b); }
    IndexOf(a, '-', b);
    var spec := a + "-" + b;
    assert spec[0] == a[0] && !IsSpace(a[0]);
    assert spec[|spec| - 1] == if b == "" then '-' else b[|b| - 1];
  }

  lemma FirstLastParsed(a: string, b: string, more: string, size: int)
    requires Digits(a) && (b == "" || Digits(b)) && (more == "" || more[0] == ',')
    ensures ParseRange(PREFIX + (a + "-" + b) + more, size)
         == if size <= 0 then None else ParseFirstLast(a, b, size)
  {
    FirstLastSpec(a, b);
    SpecOf(a + "-" + b, more);
    TrimmedIsKept(a + "-" + b);
    DigitsParse(a);
    if b != "" { DigitsParse(b); } else { TrimmedIsKept(""); }
    SpecParsed(a + "-" + b, a, b, size);
  }

  /** The first-last form is what the RFC says, for every pair of numbers: unless
      the last position does not fit 64 bits, which the code takes for malformed
      and the RFC for the end of the file. `more` is any further list of ranges. */
  lemma FirstLastForm(a: string, b: string, more: string, size: int)
    requires Digits(a) && Digits(b) && (more == "" || more[0] == ',') && size < INT64_LIMIT
    ensures ParseRange(PREFIX + (a + "-" + b) + more, size) == IntRange(Value(a), Value(b), size)
        <==> Value(b) < INT64_LIMIT || IntRange(Value(a), Value(b), size).None?
  {
    FirstLastParsed(a, b, more, size);
    if size > 0 { FirstLastNumbers(a, b, size); }
  }

  lemma FirstLastNumbers(a: string, b: string, size: int)
    requires Digits(a) && Digits(b) && 0 < size < INT64_LIMIT
    ensures ParseFirstLast(a, b, size)
         == if Value(b) < INT64_LIMIT then IntRange(Value(a), Value(b), size) else None
  {
    DigitsParse(a);
    DigitsParse(b);
  }

  lemma OpenForm(a: string, more: string, size: int)
    requires Digits(a) && (more == "" || more[0] == ',') && size < INT64_LIMIT
    ensures ParseRange(PREFIX + (a + "-") + more, size)
         == if Value(a) < size then Some(Range(Value(a), size - 1)) else None
  {
    assert a + "-" + "" == a + "-";
    FirstLastParsed(a, "", more, size);
    DigitsParse(a);
  }

  lemma SuffixForm(b: string, more: string, size: int)
    requires Digits(b) && (more == "" || more[0] == ',') && size < INT64_LIMIT
    ensures ParseRange(PREFIX + ("-" + b) + more, size) == SuffixRange(Value(b), size)
        <==> Value(b) < INT64_LIMIT || size <= 0
  {
    var spec := "-" + b;
    DigitsParse(b);
    assert spec[|spec| - 1] == b[|b| - 1] && spec[1..] == b;
    assert !IsSpace('-') && !IsSpace(b[|b| - 1]);
    assert ',' !in spec;
    SpecOf(spec, more);
    TrimmedIsKept(spec);
  }

  /** White space around the numbers and the range is ignored. */
  lemma PaddedForm(w1: string, a: string, w2: string, w3: string, b: string, w4: string, more: string, size: int)
    requires AllSpace(w1) && AllSpace(w2) && AllSpace(w3) && AllSpace(w4)
    requires Digits(a) && Digits(b) && (more == "" || more[0] == ',')
    ensures ParseRange(PREFIX + (w1 + (a + w2 + "-" + w3 + b) + w4) + more, size)
         == ParseRange(PREFIX + (a + "-" + b) + more, size)
  {
    FirstLastParsed(a, b, more, size);
    PaddedParsed(w1, a, w2, w3, b, w4, more, size);
  }

  lemma PaddedParsed(w1: string, a: string, w2: string, w3: string, b: string, w4: string, more: string, size: int)
    requires AllSpace(w1) && AllSpace(w2) && AllSpace(w3) && AllSpace(w4)
    requires Digits(a) && Digits(b) && (more == "" || more[0] == ',')
    ensures ParseRange(PREFIX + (w1 + (a + w2 + "-" + w3 + b) + w4) + more, size)
         == if size <= 0 then None else ParseFirstLast(a, b, size)
  {
    CoreParsed(a, w2, w3, b, size);
    PaddedFirst(w1, a + w2 + "-" + w3 + b, w4, more);
  }

  lemma PaddedFirst(w1: string, core: string, w4: string, more: string)
    requires AllSpace(w1) && AllSpace(w4) && ',' !in core && TrimSpace(core) == core
    requires more == "" || more[0] == ','
    ensures FirstRange(PREFIX + (w1 + core + w4) + more) == core
  {
    Harmless(w1);
    Harmless(w4);
    TrimPadded(w1, core, w4);
    SpecOf(w1 + core + w4, more);
  }

  lemma CoreParsed(a: string, w2: string, w3: string, b: string, size: int)
    requires AllSpace(w2) && AllSpace(w3) && Digits(a) && Digits(b)
    ensures var core := a + w2 + "-" + w3 + b;
      && ',' !in core && TrimSpace(core) == core
      && ParseSpec(core, size) == if size <= 0 then None else ParseFirstLast(a, b, size)
  {
    CoreShape(a, w2, w3, b);
    DigitsParse(a);
    DigitsParse(b);
    TrimPadRight(a, w2);
    TrimPadLeft(w3, b);
    SpecParsed(a + w2 + "-" + w3 + b, a + w2, w3 + b, size);
  }

  lemma SpecParsed(spec: string, left: string, right: string, size: int)
    requires spec != "" && spec[0] != '-' && Index(spec, '-') == |left| < |spec|
    requires spec[..|left|] == left && spec[|left| + 1..] == right
    ensures ParseSpec(spec, size) ==
      if size <= 0 then None else ParseFirstLast(TrimSpace(left), TrimSpace(right), size)
  {}

  lemma CoreShape(a: string, w2: string, w3: string, b: string)
    requires AllSpace(w2) && AllSpace(w3) && Digits(a) && Digits(b)
    ensures var core := a + w2 + "-" + w3 + b;
      && TrimSpace(core) == core && ',' !in core && core != "" && core[0] != '-'
      && Index(core, '-') == |a + w2| && core[..|a + w2|] == a + w2 && core[|a + w2| + 1..] == w3 + b
  {
    var core := a + w2 + "-" + w3 + b;
    DigitsParse(a);
    DigitsParse(b);
    Harmless(w2);
    Harmless(w3);
    assert core[0] == a[0] && core[|core| - 1] == b[|b| - 1];
    assert !IsSpace(a[0]) && !IsSpace(b[|b| - 1]);
    TrimmedIsKept(core);
    assert core == (a + w2) + ['-'] + (w3 + b);
    IndexOf(a + w2, '-', w3 + b);
  }

  lemma Harmless(w: string)
    requires AllSpace(w)
    ensures ',' !in w && '-' !in w
  {
    assert !IsSpace(',') && !IsSpace('-');
  }

  /** Printing a valid range and parsing it gives it back. */
  lemma RangeRoundTrip(start: nat, end: nat, size: int)
    requires start <= end < size < INT64_LIMIT
    ensures ParseRange(PREFIX + (Print(start) + "-" + Print(end)), size) == Some(Range(start, end))
  {
    PrintValue(start);
    PrintValue(end);
    FirstLastForm(Print(start), Print(end), "", size);
    var h := PREFIX + (Print(start) + "-" + Print(end));
    assert h + "" == h;
  }

  // ---- the response ----

  datatype Response = Response(status: int, announced: int, contentRange: Option<Range>, body: seq<int>)

  /** GET or HEAD of an open file with an optional Range header. */
  method HandleGet(head: bool, header: Option<string>, content: seq<int>, seekOk: bool) returns (r: Response)
    ensures r.status in {200, 206, 416, 500}
    ensures r.status == 200 <==> header.None? || !(PREFIX <= header.value)
    ensures header.Some? && PREFIX <= header.value && ParseRange(header.value, |content|).Some? ==>
      r.status == if seekOk then 206 else 500
    ensures r.status == 206 ==> header.Some? && r.contentRange == ParseRange(header.value, |content|)
    ensures r.status == 206 ==>
      r.contentRange.Some? && r.announced == r.contentRange.value.end - r.contentRange.value.start + 1
    ensures r.status == 206 && !head ==>
      r.body == content[r.contentRange.value.start..r.contentRange.value.end + 1] && |r.body| == r.announced
    ensures r.status == 200 ==>
      (header.None? || !(PREFIX <= header.value)) && r.announced == |content| && (head || r.body == content)
    ensures r.status == 416 <==>
      header.Some? && PREFIX <= header.value && ParseRange(header.value, |content|).None?
    ensures r.status == 500 ==> !seekOk
    ensures head ==> r.body == []
  {
    if header.Some? && PREFIX <= header.value {
      var range := ParseRange(header.value, |content|);
      if range.Some? {
        if !seekOk {
          return Response(500, 0, None, []);
        }
        var n := range.value.end - range.value.start + 1;
        if head {
          return Response(206, n, range, []);
        }
        return Response(206, n, range, content[range.value.start..][..n]);
      }
      return Response(416, 0, None, []);
    }
    if head {
      return Response(200, |content|, None, []);
    }
    return Response(200, |content|, None, content);
  }
}
