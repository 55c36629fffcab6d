/** The SetEnv option: a comma-separated list of KEY=VALUE pairs, its merge, and
    the environment requests a session sends for it. */
module SetEnv {
  import opened Optional
  import opened Text
  import opened Sorting

  type Env = map<string, string>

  datatype Pair = Pair(key: string, val: string)

  /** One element of the list; malformed ones are skipped. */
  function ParsePair(part: string): Option<Pair> {
    var pair := TrimSpace(part);
    var eq := Index(pair, '=');
    if pair == "" || eq == |pair| then None
    else
      var key := TrimSpace(pair[..eq]);
      if key == "" then None else Some(Pair(key, TrimSpace(pair[eq + 1..])))
  }

  function ParseParts(parts: seq<string>): seq<Pair>
    decreases |parts|
  {
    if parts == [] then []
    else
      var last := ParsePair(parts[|parts| - 1]);
      ParseParts(parts[..|parts| - 1]) + if last.Some? then [last.value] else []
  }

  /** The pairs of a list, in order. */
  function Pairs(s: string): seq<Pair> {
    ParseParts(Split(s, ','))
  }

  /** The environment that pairs set, the last one for a key winning. */
  function Put(ps: seq<Pair>): Env
    decreases |ps|
  {
    if ps == [] then map[] else Put(ps[..|ps| - 1])[ps[|ps| - 1].key := ps[|ps| - 1].val]
  }

  /** The effect of update pairs: an empty value removes the variable. */
  function Update(env: Env, ps: seq<Pair>): Env
    decreases |ps|
  {
    if ps == [] then env
    else
      var before, p := Update(env, ps[..|ps| - 1]), ps[|ps| - 1];
      if p.val == "" then before - {p.key} else before[p.key := p.val]
  }

  /** The canonical list of an environment. */
  ghost function Render(env: Env): string {
    Join(RenderKeys(env, SortedList(env.Keys)), ',')
  }

  function RenderKeys(env: Env, keys: seq<string>): seq<string>
    requires forall k | k in keys :: k in env
  {
    seq(|keys|, i requires 0 <= i < |keys| => keys[i] + "=" + env[keys[i]])
  }

  ghost function Merged(existing: string, update: string): string {
    Render(Update(Put(Pairs(existing)), Pairs(update)))
  }

  // ---- the code ----

  lemma ParseSnoc(parts: seq<string>, part: string)
    ensures var p := ParsePair(part);
      ParseParts(parts + [part]) == if p.Some? then ParseParts(parts) + [p.value] else ParseParts(parts)
  {
    assert (parts + [part])[..|parts|] == parts;
  }

  lemma ParseStep(parts: seq<string>, i: nat)
    requires i < |parts|
    ensures var p, done := ParsePair(parts[i]), ParseParts(parts[..i]);
      ParseParts(parts[..i + 1]) == if p.Some? then done + [p.value] else done
  {
    ParseSnoc(parts[..i], parts[i]);
    assert parts[..i + 1] == parts[..i] + [parts[i]];
  }

  lemma PutStep(ps: seq<Pair>, p: Pair)
    ensures Put(ps + [p]) == Put(ps)[p.key := p.val]
  {
    assert (ps + [p])[..|ps|] == ps;
  }

  lemma UpdateStep(env: Env, ps: seq<Pair>, p: Pair)
    ensures Update(env, ps + [p])
         == if p.val == "" then Update(env, ps) - {p.key} else Update(env, ps)[p.key := p.val]
  {
    assert (ps + [p])[..|ps|] == ps;
  }

  lemma NoPairs()
    ensures Pairs("") == []
  {
    assert TrimSpace("") == "";
    assert Split("", ',') == [""] && ParseParts([""][..0]) == [];
  }

  method ParseEnvPairs(s: string) returns (m: Env)
    ensures m == Put(Pairs(s))
  {
    m := map[];
    if s == "" {
      NoPairs();
      return;
    }
    var parts := Split(s, ',');
    for i := 0 to |parts|
      invariant m == Put(ParseParts(parts[..i]))
    {
      ParseStep(parts, i);
      var p := ParsePair(parts[i]);
      if p.Some? {
        PutStep(ParseParts(parts[..i]), p.value);
        m := m[p.value.key := p.value.val];
      }
    }
    assert parts[..|parts|] == parts;
  }

  method MergeSetEnv(existing: string, update: string) returns (r: string)
    ensures r == Merged(existing, update)
  {
    var env := ParseEnvPairs(existing);
    ghost var was := env;
    var parts := Split(update, ',');
    for i := 0 to |parts|
      invariant env == Update(was, ParseParts(parts[..i]))
    {
      ParseStep(parts, i);
      var p := ParsePair(parts[i]);
      if p.Some? {
        UpdateStep(was, ParseParts(parts[..i]), p.value);
        if p.value.val == "" {
          env := env - {p.value.key};
        } else {
          env := env[p.value.key := p.value.val];
        }
      }
    }
    assert parts[..|parts|] == parts;
    r := Rebuild(env);
  }

  /** The keys in any order, sorted in place, then joined. */
  method Rebuild(env: Env) returns (r: string)
    ensures r == Render(env)
  {
    if |env| == 0 {
      EmptyList();
      return "";
    }
    var keys := CollectKeys(env);
    ghost var listed := keys[..];
    SortStrings(keys);
    SortedIsList(keys[..], listed);
    ghost var sorted := keys[..];
    var parts: seq<string> := [];
    for i := 0 to keys.Length
      invariant keys[..] == sorted && forall k | k in sorted :: k in env
      invariant parts == RenderKeys(env, sorted[..i])
    {
      assert keys[i] == sorted[i];
      OneRendered(env, sorted, i);
      parts := parts + [keys[i] + "=" + env[keys[i]]];
    }
    assert sorted[..keys.Length] == sorted;
    r := Join(parts, ',');
  }

  lemma OneRendered(env: Env, keys: seq<string>, i: nat)
    requires i < |keys| && forall k | k in keys :: k in env
    ensures RenderKeys(env, keys[..i + 1]) == RenderKeys(env, keys[..i]) + [keys[i] + "=" + env[keys[i]]]
  {}

  method CollectKeys(env: Env) returns (keys: array<string>)
    ensures fresh(keys) && Elements(keys[..]) == env.Keys
    ensures forall i, j | 0 <= i < j < keys.Length :: keys[i] != keys[j]
    ensures forall i | 0 <= i < keys.Length :: keys[i] in env
  {
    var listed: seq<string> := [];
    var todo := env.Keys;
    while todo != {}
      invariant todo <= env.Keys
      invariant forall k :: k in listed <==> k in env.Keys - todo
      invariant forall i, j | 0 <= i < j < |listed| :: listed[i] != listed[j]
    {
      var k :| k in todo;
      assert k !in listed;
      listed, todo := listed + [k], todo - {k};
    }
    keys := new string[|listed|](i requires 0 <= i < |listed| => listed[i]);
    assert keys[..] == listed;
    assert forall i | 0 <= i < keys.Length :: listed[i] in listed;
  }

  lemma EmptyList()
    ensures SortedList({}) == []
  {
    NoElements(SortedList({}));
  }

  lemma OneRequest(was: seq<Pair>, parts: seq<string>, i: nat)
    requires i < |parts|
    ensures var p, sent := ParsePair(parts[i]), was + ParseParts(parts[..i]);
      was + ParseParts(parts[..i + 1]) == if p.Some? then sent + [p.value] else sent
  {
    ParseStep(parts, i);
    var p, done := ParsePair(parts[i]), ParseParts(parts[..i]);
    if p.Some? { assert was + (done + [p.value]) == was + done + [p.value]; }
  }

  class Session {
    var requests: seq<Pair>

    constructor ()
      ensures requests == []
    {
      requests := [];
    }

    /** One environment request per pair; the server may ignore any of them. */
    method ApplySessionEnv(option: Option<string>)
      modifies this
      ensures requests == old(requests) + if option.Some? then Pairs(option.value) else []
    {
      NoPairs();
      if option.Some? && option.value != "" {
        var parts := Split(option.value, ',');
        ghost var was := requests;
        for i := 0 to |parts|
          invariant requests == was + ParseParts(parts[..i])
        {
          OneRequest(was, parts, i);
          var p := ParsePair(parts[i]);
          if p.Some? {
            requests := requests + [p.value];
          }
        }
        assert parts[..|parts|] == parts;
      }
    }
  }

  // ---- what a list means ----

  /** An element counts exactly when there is something but white space before its
      first equals sign; key and value are what is on either side, trimmed. */
  lemma ParsePairMeaning(part: string)
    ensures var i := Index(part, '=');
      ParsePair(part) ==
        if i == |part| || AllSpace(part[..i]) then None
        else Some(Pair(TrimSpace(part[..i]), TrimSpace(part[i + 1..])))
  {
    var pair := TrimSpace(part);
    var a, b := TrimSpaceCuts(part);
    NoEquals(a);
    NoEquals(b);
    if '=' in pair {
      var left, right := Halves(pair);
      Sides(part, a, left, right, b);
      TrimmedParts(part, left, right);
      TrimPadLeft(a, left);
      TrimPadRight(right, b);
      TrimEmptyIff(a + left);
    } else {
      NotInParts(part, a, pair, b);
    }
  }

  lemma Halves(pair: string) returns (left: string, right: string)
    requires '=' in pair
    ensures pair == left + ['='] + right && '=' !in left
  {
    var eq := Index(pair, '=');
    left, right := pair[..eq], pair[eq + 1..];
  }

  lemma TrimmedParts(part: string, left: string, right: string)
    requires TrimSpace(part) == left + ['='] + right && '=' !in left
    ensures ParsePair(part) ==
      if TrimSpace(left) == "" then None else Some(Pair(TrimSpace(left), TrimSpace(right)))
  {
    IndexOf(left, '=', right);
    Beside(TrimSpace(part), left, right);
  }

  lemma NotInParts(part: string, a: string, pair: string, b: string)
    requires part == a + pair + b && '=' !in a && '=' !in pair && '=' !in b
    ensures Index(part, '=') == |part|
  {
    assert forall c | c in part :: c in a || c in pair || c in b;
  }

  lemma Sides(part: string, a: string, left: string, right: string, b: string)
    requires part == a + (left + ['='] + right) + b && '=' !in a && '=' !in left
    ensures var i := Index(part, '=');
      i == |a + left| && i < |part| && part[..i] == a + left && part[i + 1..] == right + b
  {
    assert part == (a + left) + ['='] + (right + b);
    IndexOf(a + left, '=', right + b);
    Beside(part, a + left, right + b);
  }

  lemma Beside(part: string, left: string, right: string)
    requires part == left + ['='] + right
    ensures part[..|left|] == left && part[|left| + 1..] == right
  {}

  lemma NoEquals(s: string)
    requires AllSpace(s)
    ensures '=' !in s && ',' !in s
  {
    assert !IsSpace('=') && !IsSpace(',');
  }

  /** White space around the key and the value is ignored. */
  lemma PaddedPair(w1: string, k: string, w2: string, w3: string, v: string, w4: string)
    requires AllSpace(w1) && AllSpace(w2) && AllSpace(w3) && AllSpace(w4) && GoodKey(k) && GoodValue(v)
    ensures ParsePair(w1 + k + w2 + "=" + w3 + v + w4) == Some(Pair(k, v))
  {
    var left, right := w1 + k + w2, w3 + v + w4;
    var part := left + ['='] + right;
    assert w1 + k + w2 + "=" + w3 + v + w4 == part;
    NoEquals(w1);
    NoEquals(w2);
    IndexOf(left, '=', right);
    Beside(part, left, right);
    TrimPadded(w1, k, w2);
    TrimPadded(w3, v, w4);
    TrimmedIsKept(k);
    TrimmedIsKept(v);
    TrimEmptyIff(left);
    ParsePairMeaning(part);
  }

  /** The pairs of a list are those of its elements, in order. */
  lemma PairsOf(part: string, more: string)
    requires ',' !in part
    ensures var p := ParsePair(part);
      && Pairs(part) == (if p.Some? then [p.value] else [])
      && Pairs(part + [','] + more) == (if p.Some? then [p.value] else []) + Pairs(more)
  {
    var p := ParsePair(part);
    assert Split(part, ',') == [part];
    ParseSnoc([], part);
    assert [] + [part] == [part];
    SplitAppend(part, ',', more);
    ParsePartsAppend([part], Split(more, ','));
  }

  /** In a list read as an environment, the last pair for a key decides. */
  lemma {:induction false} PutAt(ps: seq<Pair>, k: string)
    ensures k in Put(ps) <==> exists p :: p in ps && p.key == k
    ensures forall i | LastFor(ps, k, i) :: k in Put(ps) && Put(ps)[k] == ps[i].val
  {
    PutLast(ps, k);
    LastValueNone(ps, k);
    forall i | LastFor(ps, k, i)
      ensures LastValue(ps, k) == Some(ps[i].val)
    {
      LastValueIs(ps, k, i);
    }
  }

  lemma {:induction false} PutLast(ps: seq<Pair>, k: string)
    ensures k in Put(ps) <==> LastValue(ps, k).Some?
    ensures k in Put(ps) ==> Put(ps)[k] == LastValue(ps, k).value
    decreases |ps|
  {
    if ps != [] {
      PutLast(ps[..|ps| - 1], k);
    }
  }

  /** In an update, the last pair for a key decides: an empty value removes it, any
      other sets it; keys without a pair keep what they had. */
  lemma {:induction false} UpdateMeaning(env: Env, ps: seq<Pair>, k: string)
    ensures (forall p | p in ps :: p.key != k) ==>
      (k in Update(env, ps) <==> k in env) && (k in env ==> Update(env, ps)[k] == env[k])
    ensures forall i | LastFor(ps, k, i) ::
      (k in Update(env, ps) <==> ps[i].val != "") && (ps[i].val != "" ==> Update(env, ps)[k] == ps[i].val)
  {
    UpdateAt(env, ps, k);
    LastValueNone(ps, k);
    forall i | LastFor(ps, k, i)
      ensures LastValue(ps, k) == Some(ps[i].val)
    {
      LastValueIs(ps, k, i);
    }
  }

  predicate LastFor(ps: seq<Pair>, k: string, i: int) {
    0 <= i < |ps| && ps[i].key == k && forall j | i < j < |ps| :: ps[j].key != k
  }

  lemma {:induction false} LastValueIs(ps: seq<Pair>, k: string, i: nat)
    requires LastFor(ps, k, i)
    ensures LastValue(ps, k) == Some(ps[i].val)
    decreases |ps|
  {
    if i < |ps| - 1 {
      LastValueIs(ps[..|ps| - 1], k, i);
    }
  }

  lemma {:induction false} LastValueNone(ps: seq<Pair>, k: string)
    ensures (forall p | p in ps :: p.key != k) <==> LastValue(ps, k).None?
    decreases |ps|
  {
    if ps != [] {
      var n := |ps| - 1;
      LastValueNone(ps[..n], k);
      assert forall p :: p in ps <==> p in ps[..n] || p == ps[n];
    }
  }

  // ---- laws ----

  predicate GoodKey(k: string) {
    k != "" && Trim(k) && ',' !in k && '=' !in k
  }

  predicate GoodValue(v: string) {
    Trim(v) && ',' !in v
  }

  ghost predicate GoodEnv(env: Env) {
    forall k | k in env :: GoodKey(k) && GoodValue(env[k])
  }

  ghost predicate GoodPairs(ps: seq<Pair>) {
    forall p | p in ps :: GoodKey(p.key) && GoodValue(p.val)
  }

  lemma ParsePairGood(part: string)
    requires ',' !in part && ParsePair(part).Some?
    ensures var p := ParsePair(part).value; GoodKey(p.key) && GoodValue(p.val)
  {
    var pair := TrimSpace(part);
    TrimSpaceMeaning(part);
    var eq := Index(pair, '=');
    TrimSpaceMeaning(pair[..eq]);
    TrimSpaceMeaning(pair[eq + 1..]);
    assert forall c | c in pair[..eq] :: c in pair;
    assert forall c | c in pair[eq + 1..] :: c in pair;
  }

  lemma {:induction false} ParsePartsGood(parts: seq<string>)
    requires forall p | p in parts :: ',' !in p
    ensures GoodPairs(ParseParts(parts))
    decreases |parts|
  {
    if parts != [] {
      var last := parts[|parts| - 1];
      assert last in parts;
      ParsePartsGood(parts[..|parts| - 1]);
      if ParsePair(last).Some? {
        ParsePairGood(last);
      }
    }
  }

  lemma PairsGood(s: string)
    ensures GoodPairs(Pairs(s))
  {
    SplitLacks(s, ',');
    ParsePartsGood(Split(s, ','));
  }

  lemma {:induction false} UpdateGood(env: Env, ps: seq<Pair>)
    requires GoodEnv(env) && GoodPairs(ps)
    ensures GoodEnv(Update(env, ps))
    decreases |ps|
  {
    if ps != [] {
      assert ps[|ps| - 1] in ps;
      UpdateGood(env, ps[..|ps| - 1]);
    }
  }

  lemma {:induction false} PutGood(ps: seq<Pair>)
    requires GoodPairs(ps)
    ensures GoodEnv(Put(ps))
    decreases |ps|
  {
    if ps != [] {
      assert ps[|ps| - 1] in ps;
      PutGood(ps[..|ps| - 1]);
    }
  }

  /** The pairs of an environment in key order. */
  ghost function SortedPairs(env: Env): seq<Pair> {
    KeyPairs(env, SortedList(env.Keys))
  }

  function KeyPairs(env: Env, keys: seq<string>): seq<Pair>
    requires forall k | k in keys :: k in env
  {
    seq(|keys|, i requires 0 <= i < |keys| => Pair(keys[i], env[keys[i]]))
  }

  lemma ParseRendered(k: string, v: string)
    requires GoodKey(k) && GoodValue(v)
    ensures ParsePair(k + "=" + v) == Some(Pair(k, v)) && ',' !in k + "=" + v
  {
    var s := k + "=" + v;
    assert s[0] == k[0] && s[|s| - 1] == if v == "" then '=' else v[|v| - 1];
    assert !IsSpace('=');
    TrimmedIsKept(s);
    IndexOf(k, '=', v);
    assert s[..|k|] == k && s[|k| + 1..] == v;
    TrimmedIsKept(k);
    TrimmedIsKept(v);
  }

  lemma KeysSnoc(env: Env, keys: seq<string>)
    requires keys != [] && forall k | k in keys :: k in env
    ensures var n := |keys| - 1;
      && (forall k | k in keys[..n] :: k in env)
      && RenderKeys(env, keys) == RenderKeys(env, keys[..n]) + [keys[n] + "=" + env[keys[n]]]
      && KeyPairs(env, keys) == KeyPairs(env, keys[..n]) + [Pair(keys[n], env[keys[n]])]
  {}

  lemma {:induction false} ParseRenderedKeys(env: Env, keys: seq<string>)
    requires GoodEnv(env) && forall k | k in keys :: k in env
    ensures ParseParts(RenderKeys(env, keys)) == KeyPairs(env, keys)
    ensures forall p | p in RenderKeys(env, keys) :: ',' !in p
    decreases |keys|
  {
    if keys != [] {
      var n := |keys| - 1;
      KeysSnoc(env, keys);
      ParseRenderedKeys(env, keys[..n]);
      ParseRendered(keys[n], env[keys[n]]);
      ParseSnoc(RenderKeys(env, keys[..n]), keys[n] + "=" + env[keys[n]]);
    }
  }

  /** A rendered environment is read back as its pairs, in order, each once. */
  lemma PairsOfRendered(env: Env)
    requires GoodEnv(env)
    ensures Pairs(Render(env)) == SortedPairs(env)
  {
    var keys := SortedList(env.Keys);
    assert forall k | k in keys :: k in Elements(keys);
    var parts := RenderKeys(env, keys);
    ParseRenderedKeys(env, keys);
    if keys == [] {
      NoPairs();
    } else {
      SplitJoin(parts, ',');
    }
  }

  lemma {:induction false} PutKeyPairs(env: Env, keys: seq<string>)
    requires forall k | k in keys :: k in env
    ensures Put(KeyPairs(env, keys)) == map k | k in Elements(keys) :: env[k]
    decreases |keys|
  {
    if keys != [] {
      var n := |keys| - 1;
      PutKeyPairs(env, keys[..n]);
      assert KeyPairs(env, keys)[..n] == KeyPairs(env, keys[..n]);
      assert Elements(keys) == Elements(keys[..n]) + {keys[n]} by {
        assert keys == keys[..n] + [keys[n]];
      }
    }
  }

  lemma ParseOfRendered(env: Env)
    requires GoodEnv(env)
    ensures Put(Pairs(Render(env))) == env
  {
    PairsOfRendered(env);
    assert forall k | k in SortedList(env.Keys) :: k in Elements(SortedList(env.Keys));
    PutKeyPairs(env, SortedList(env.Keys));
  }

  lemma UpdatedIsGood(existing: string, update: string)
    ensures GoodEnv(Update(Put(Pairs(existing)), Pairs(update)))
  {
    PairsGood(existing);
    PairsGood(update);
    PutGood(Pairs(existing));
    UpdateGood(Put(Pairs(existing)), Pairs(update));
  }

  /** Merging is an action on environments: what the merged list means is the old
      meaning with the update applied; it is canonical, listing every variable once
      in key order; and a session given it sends exactly those requests. */
  lemma MergeMeaning(existing: string, update: string)
    ensures var env := Update(Put(Pairs(existing)), Pairs(update));
      && Put(Pairs(Merged(existing, update))) == env
      && Pairs(Merged(existing, update)) == SortedPairs(env)
  {
    UpdatedIsGood(existing, update);
    ParseOfRendered(Update(Put(Pairs(existing)), Pairs(update)));
    PairsOfRendered(Update(Put(Pairs(existing)), Pairs(update)));
  }

  /** The merged list is empty exactly when no variable is left. */
  lemma MergedEmptyIff(existing: string, update: string)
    ensures Merged(existing, update) == "" <==> Update(Put(Pairs(existing)), Pairs(update)) == map[]
  {
    var env := Update(Put(Pairs(existing)), Pairs(update));
    MergeMeaning(existing, update);
    NoPairs();
    if env == map[] {
      EmptyList();
    } else {
      var k :| k in env;
      SortedListHas(env.Keys);
      assert SortedList(env.Keys) != [] by { NoElements(SortedList(env.Keys)); assert k in env.Keys; }
    }
  }

  lemma {:induction false} UpdateAppend(env: Env, a: seq<Pair>, b: seq<Pair>)
    ensures Update(env, a + b) == Update(Update(env, a), b)
    decreases |b|
  {
    if b == [] {
      assert a + b == a;
    } else {
      var n := |b| - 1;
      UpdateAppend(env, a, b[..n]);
      assert (a + b)[..|a + b| - 1] == a + b[..n];
    }
  }

  lemma AssociativePairs(a: seq<Pair>, b: seq<Pair>, c: seq<Pair>)
    ensures (a + b) + c == a + (b + c)
  {}

  lemma {:induction false} ParsePartsAppend(a: seq<string>, b: seq<string>)
    ensures ParseParts(a + b) == ParseParts(a) + ParseParts(b)
    decreases |b|
  {
    if b == [] {
      assert a + b == a;
    } else {
      var n := |b| - 1;
      ParsePartsAppend(a, b[..n]);
      assert a + b == (a + b[..n]) + [b[n]] && b == b[..n] + [b[n]];
      ParseSnoc(a + b[..n], b[n]);
      ParseSnoc(b[..n], b[n]);
      if ParsePair(b[n]).Some? {
        AssociativePairs(ParseParts(a), ParseParts(b[..n]), [ParsePair(b[n]).value]);
      }
    }
  }

  /** Two merges in a row are one merge of both updates. */
  lemma MergeCompose(e: string, u: string, v: string)
    ensures Merged(Merged(e, u), v) == Merged(e, u + [','] + v)
  {
    MergeMeaning(e, u);
    SplitAppend(u, ',', v);
    ParsePartsAppend(Split(u, ','), Split(v, ','));
    UpdateAppend(Put(Pairs(e)), Pairs(u), Pairs(v));
  }

  /** The last value an update gives a key. */
  function LastValue(ps: seq<Pair>, k: string): Option<string>
    decreases |ps|
  {
    if ps == [] then None
    else if ps[|ps| - 1].key == k then Some(ps[|ps| - 1].val) else LastValue(ps[..|ps| - 1], k)
  }

  lemma {:induction false} UpdateAt(env: Env, ps: seq<Pair>, k: string)
    ensures var after, v := Update(env, ps), LastValue(ps, k);
      && (k in after <==> if v.Some? then v.value != "" else k in env)
      && (k in after ==> after[k] == if v.Some? then v.value else env[k])
    decreases |ps|
  {
    if ps != [] {
      UpdateAt(env, ps[..|ps| - 1], k);
    }
  }

  lemma UpdateTwice(env: Env, ps: seq<Pair>)
    ensures Update(Update(env, ps), ps) == Update(env, ps)
  {
    var once, twice := Update(env, ps), Update(Update(env, ps), ps);
    forall k
      ensures (k in twice <==> k in once) && (k in once ==> twice[k] == once[k])
    {
      UpdateAt(env, ps, k);
      UpdateAt(once, ps, k);
    }
  }

  /** Merging the same update again changes nothing. */
  lemma MergeIdempotent(e: string, u: string)
    ensures Merged(Merged(e, u), u) == Merged(e, u)
  {
    MergeMeaning(e, u);
    UpdateTwice(Put(Pairs(e)), Pairs(u));
  }
}
