/** Editing the option map of a profile. */
module Options {
  import opened Optional
  import opened SetEnv

  type OptionMap = map<string, string>

  const PER_PROFILE: set<string> := {
    "ConnectTimeout", "SetEnv", "term.mode", "hostkey.mode", "history.record_commands",
    "sftp.bind", "webdav.bind", "webdav.token_mode"}

  const GLOBAL_ONLY: set<string> := {"sftp.allow_non_loopback"}

  datatype KeyError = GlobalOnly(key: string) | Unsupported(key: string)

  function ErrorFor(key: string): Option<KeyError> {
    if key in PER_PROFILE then None
    else if key in GLOBAL_ONLY then Some(GlobalOnly(key)) else Some(Unsupported(key))
  }

  /** What decides about binding to other than the loopback interface is for the global
      configuration alone; the eight others are exactly what a profile may set. */
  lemma WhitelistIs(key: string)
    ensures ErrorFor(key).None? <==>
      key in ["ConnectTimeout", "SetEnv", "term.mode", "hostkey.mode", "history.record_commands",
              "sftp.bind", "webdav.bind", "webdav.token_mode"]
    ensures ErrorFor("sftp.allow_non_loopback") == Some(GlobalOnly("sftp.allow_non_loopback"))
  {}

  /** One error per key that may not be set on a profile, in order. */
  method ValidateOptionKeys(keys: seq<string>) returns (errs: seq<KeyError>)
    ensures errs == [] <==> forall k | k in keys :: k in PER_PROFILE
    ensures forall e | e in errs :: e.key in keys && ErrorFor(e.key) == Some(e)
    ensures forall k | k in keys && k !in PER_PROFILE :: ErrorFor(k).value in errs
  {
    errs := [];
    for i := 0 to |keys|
      invariant errs == [] <==> forall j | 0 <= j < i :: keys[j] in PER_PROFILE
      invariant forall e | e in errs :: e.key in keys && ErrorFor(e.key) == Some(e)
      invariant forall j | 0 <= j < i && keys[j] !in PER_PROFILE :: ErrorFor(keys[j]).value in errs
    {
      if keys[i] in PER_PROFILE { continue; }
      if keys[i] in GLOBAL_ONLY {
        errs := errs + [GlobalOnly(keys[i])];
        continue;
      }
      errs := errs + [Unsupported(keys[i])];
    }
  }

  function Get(m: OptionMap, k: string): string {
    if k in m then m[k] else ""
  }

  /** The value of one key after an edit: SetEnv merges and disappears when no
      variable is left, every other requested key is replaced. */
  ghost function EditedValue(m: OptionMap, request: OptionMap, k: string): Option<string> {
    if k !in request then (if k in m then Some(m[k]) else None)
    else if k != "SetEnv" then Some(request[k])
    else
      var merged := Merged(Get(m, k), request[k]);
      if merged == "" then None else Some(merged)
  }

  ghost function Edited(m: OptionMap, request: OptionMap): OptionMap {
    map k | k in m.Keys + request.Keys && EditedValue(m, request, k).Some? :: EditedValue(m, request, k).value
  }

  /** The option map of a profile, edited in place. */
  class ProfileOptions {
    var options: OptionMap

    constructor ()
      ensures options == map[]
    {
      options := map[];
    }

    /** Visits the requested keys in any order; the result does not depend on it. */
    method MergeOptions(request: OptionMap)
      modifies this
      ensures options == Edited(old(options), request)
      ensures forall k :: EditMeaning(old(options), options, request, k)
    {
      ghost var was := options;
      var todo := request.Keys;
      while todo != {}
        invariant todo <= request.Keys
        invariant options == Edited(was, Only(request, request.Keys - todo))
      {
        var k :| k in todo;
        ghost var done := request.Keys - todo;
        EditOneMore(was, request, done, k);
        if k == "SetEnv" {
          var merged := MergeSetEnv(Get(options, k), request[k]);
          if merged == "" {
            options := options - {k};
          } else {
            options := options[k := merged];
          }
        } else {
          options := options[k := request[k]];
        }
        todo := todo - {k};
        assert request.Keys - todo == done + {k};
      }
      assert Only(request, request.Keys - {}) == request;
      forall k
        ensures EditMeaning(was, options, request, k)
      {
        EditedMeans(was, request, k);
      }
    }

    /** The whole request is applied, or nothing of it. */
    method ApplyOptionMap(request: OptionMap) returns (errs: seq<KeyError>)
      modifies this
      ensures errs == [] <==> request.Keys <= PER_PROFILE
      ensures options == if errs == [] then Edited(old(options), request) else old(options)
      ensures forall k | k in request && k !in PER_PROFILE :: ErrorFor(k).value in errs
      ensures old(options).Keys <= PER_PROFILE ==> options.Keys <= PER_PROFILE
    {
      var keys: seq<string> := [];
      var todo := request.Keys;
      while todo != {}
        invariant todo <= request.Keys
        invariant forall k :: k in keys <==> k in request.Keys - todo
        modifies {}
      {
        var k :| k in todo;
        keys, todo := keys + [k], todo - {k};
      }
      errs := ValidateOptionKeys(keys);
      if |errs| > 0 {
        return;
      }
      MergeOptions(request);
    }
  }

  /** What an edit means for one key. */
  ghost predicate EditMeaning(was: OptionMap, now: OptionMap, request: OptionMap, k: string) {
    if k !in request then (k in now <==> k in was) && (k in now ==> now[k] == was[k])
    else if k != "SetEnv" then k in now && now[k] == request[k]
    else
      var env := Update(Put(Pairs(Get(was, k))), Pairs(request[k]));
      && (k in now <==> env != map[])
      && (env != map[] ==> Pairs(now[k]) == SortedPairs(env))
  }

  /** Keys that are not requested stay, requested ones are replaced, and SetEnv holds
      exactly the updated environment, or goes when that is empty. */
  lemma EditedMeans(was: OptionMap, request: OptionMap, k: string)
    ensures EditMeaning(was, Edited(was, request), request, k)
  {
    EditedAt(was, request, k);
    if k in request && k == "SetEnv" {
      MergeMeaning(Get(was, k), request[k]);
      MergedEmptyIff(Get(was, k), request[k]);
    }
  }

  function Only(m: OptionMap, keys: set<string>): OptionMap {
    map k | k in m && k in keys :: m[k]
  }

  lemma ValueOneMore(was: OptionMap, request: OptionMap, done: set<string>, k: string, x: string)
    requires k in request && k !in done && done <= request.Keys
    ensures EditedValue(was, Only(request, done + {k}), x)
         == if x == k then EditedValue(was, request, k) else EditedValue(was, Only(request, done), x)
    ensures EditedValue(was, Only(request, done), k) == if k in was then Some(was[k]) else None
  {
    var a, b := Only(request, done), Only(request, done + {k});
    assert x != k ==> (x in a <==> x in b);
  }

  lemma EditedAt(was: OptionMap, request: OptionMap, x: string)
    ensures x in Edited(was, request) <==> EditedValue(was, request, x).Some?
    ensures x in Edited(was, request) ==> Edited(was, request)[x] == EditedValue(was, request, x).value
  {}

  lemma EditOneMore(was: OptionMap, request: OptionMap, done: set<string>, k: string)
    requires k in request && k !in done && done <= request.Keys
    ensures var before, after := Edited(was, Only(request, done)), Edited(was, Only(request, done + {k}));
      && Get(before, k) == Get(was, k)
      && after == match EditedValue(was, request, k) case None => before - {k} case Some(v) => before[k := v]
  {
    var before, after := Edited(was, Only(request, done)), Edited(was, Only(request, done + {k}));
    var v := EditedValue(was, request, k);
    var expected := match v case None => before - {k} case Some(v) => before[k := v];
    forall x
      ensures (x in after <==> x in expected) && (x in after ==> after[x] == expected[x])
    {
      OneKey(was, request, done, k, x);
    }
    OneKey(was, request, done, k, k);
    assert after == expected;
  }

  lemma OneKey(was: OptionMap, request: OptionMap, done: set<string>, k: string, x: string)
    requires k in request && k !in done && done <= request.Keys
    ensures var before, after := Edited(was, Only(request, done)), Edited(was, Only(request, done + {k}));
      && (x != k ==> (x in after <==> x in before) && (x in after ==> after[x] == before[x]))
      && (x == k ==> (x in before <==> x in was) && (x in before ==> before[x] == was[x]))
      && (x == k ==> (x in after <==> EditedValue(was, request, k).Some?))
      && (x == k && x in after ==> after[x] == EditedValue(was, request, k).value)
  {
    ValueOneMore(was, request, done, k, x);
    EditedAt(was, Only(request, done), x);
    EditedAt(was, Only(request, done + {k}), x);
  }

  // ---- sequences of edits ----

  ghost function EditAll(m: OptionMap, requests: seq<OptionMap>): OptionMap
    decreases |requests|
  {
    if requests == [] then m
    else
      var before, r := EditAll(m, requests[..|requests| - 1]), requests[|requests| - 1];
      if r.Keys <= PER_PROFILE then Edited(before, r) else before
  }

  /** No sequence of edits, accepted or refused, brings in a key outside the
      whitelist. */
  lemma {:induction false} OnlyWhitelisted(m: OptionMap, requests: seq<OptionMap>)
    requires m.Keys <= PER_PROFILE
    ensures EditAll(m, requests).Keys <= PER_PROFILE
    decreases |requests|
  {
    if requests != [] {
      OnlyWhitelisted(m, requests[..|requests| - 1]);
    }
  }

  lemma SameValue(m: OptionMap, request: OptionMap, k: string)
    ensures EditedValue(Edited(m, request), request, k) == EditedValue(m, request, k)
  {
    EditedAt(m, request, k);
    if k in request && k == "SetEnv" {
      MergeIdempotent(Get(m, k), request[k]);
      assert Get(Edited(m, request), k) == Merged(Get(m, k), request[k]);
    }
  }

  /** Repeating an edit changes nothing. */
  lemma EditIdempotent(m: OptionMap, request: OptionMap)
    ensures Edited(Edited(m, request), request) == Edited(m, request)
  {
    var once, twice := Edited(m, request), Edited(Edited(m, request), request);
    forall k
      ensures (k in twice <==> k in once) && (k in once ==> twice[k] == once[k])
    {
      EditedAt(m, request, k);
      EditedAt(once, request, k);
      SameValue(m, request, k);
    }
  }
}
