/** The two resolvers of jump-host chains, the daemon's and the dialer's, and the
    daemon's check that a chain is still what it was. */
module ProxyChain {
  import opened Profiles

  /** How following `proxy` from some name ends; `names` are the store names met. */
  datatype Trail =
    | Reached(names: seq<string>)   // the empty name
    | Cycle(at: string)
    | Missing(name: string)

  function Prepend(name: string, t: Trail): Trail {
    if t.Reached? then Reached([name] + t.names) else t
  }

  function Walk(st: Table, name: string, seen: set<string>): (t: Trail)
    ensures t.Reached? ==> forall n | n in t.names :: n in st
    decreases |st.Keys - seen|
  {
    if name == "" then Reached([])
    else if name in seen then Cycle(name)
    else if name !in st then Missing(name)
    else
      assert st.Keys - (seen + {name}) == st.Keys - seen - {name};
      Prepend(name, Walk(st, st[name].proxy, seen + {name}))
  }

  function Entries(st: Table, names: seq<string>): seq<Profile>
    requires forall n | n in names :: n in st
  {
    seq(|names|, i requires 0 <= i < |names| => st[names[i]])
  }

  // ---- the resolvers ----

  datatype Chain = Resolved(profiles: seq<Profile>) | CycleAt(name: string) | NotFound(name: string) | EmptyChain

  function AsChain(st: Table, t: Trail): Chain
    requires t.Reached? ==> forall n | n in t.names :: n in st
  {
    match t
    case Reached(names) => Resolved(Entries(st, names))
    case Cycle(n) => CycleAt(n)
    case Missing(n) => NotFound(n)
  }

  function Joined(names: seq<string>, t: Trail): Trail {
    if t.Reached? then Reached(names + t.names) else t
  }

  lemma WalkOn(st: Table, names: seq<string>, cur: string, seen: set<string>)
    requires cur != "" && cur !in seen && cur in st
    ensures Joined(names, Walk(st, cur, seen)) == Joined(names + [cur], Walk(st, st[cur].proxy, seen + {cur}))
    ensures cur in st.Keys - seen && st.Keys - (seen + {cur}) == st.Keys - seen - {cur}
  {
    var next := Walk(st, st[cur].proxy, seen + {cur});
    if next.Reached? { assert names + ([cur] + next.names) == names + [cur] + next.names; }
  }

  /** buildProxyChain of the daemon: the profile and every hop behind it. */
  method DaemonChain(st: Table, name: string) returns (r: Chain)
    ensures r == AsChain(st, Walk(st, name, {}))
  {
    var chain: seq<Profile> := [];
    var seen: set<string> := {};
    var cur := name;
    ghost var names: seq<string> := [];
    while cur != ""
      invariant forall n | n in names :: n in st
      invariant chain == Entries(st, names)
      invariant Walk(st, name, {}) == Joined(names, Walk(st, cur, seen))
      decreases |st.Keys - seen|
    {
      if cur in seen {
        return CycleAt(cur);
      }
      ghost var met := seen;
      seen := seen + {cur};
      if cur !in st {
        return NotFound(cur);
      }
      WalkOn(st, names, cur, met);
      chain := chain + [st[cur]];
      names := names + [cur];
      cur := st[cur].proxy;
    }
    assert names + [] == names;
    return Resolved(chain);
  }

  /** buildProxyChain of the dialer: the hops behind a profile in hand. */
  method DialerChain(p: Profile, st: Table) returns (r: Chain)
    ensures r == if p.proxy == "" then EmptyChain else AsChain(st, Walk(st, p.proxy, {p.name}))
  {
    var seen := {p.name};
    var chain: seq<Profile> := [];
    var cur := p;
    ghost var names: seq<string> := [];
    while cur.proxy != ""
      invariant forall n | n in names :: n in st
      invariant chain == Entries(st, names)
      invariant names == [] ==> cur == p
      invariant Walk(st, p.proxy, {p.name}) == Joined(names, Walk(st, cur.proxy, seen))
      decreases |st.Keys - seen|
    {
      if cur.proxy in seen {
        return CycleAt(cur.proxy);
      }
      ghost var met := seen;
      seen := seen + {cur.proxy};
      if cur.proxy !in st {
        return NotFound(cur.proxy);
      }
      var pp := st[cur.proxy];
      WalkOn(st, names, cur.proxy, met);
      chain := chain + [pp];
      names := names + [cur.proxy];
      cur := pp;
    }
    assert names + [] == names;
    if |chain| == 0 {
      return EmptyChain;
    }
    return Resolved(chain);
  }

  // ---- the reference: paths along `proxy` ----

  /** `names` are stored names, each the proxy of the one before, starting at
      `name`, and `end` is the proxy of the last. */
  predicate Leads(st: Table, name: string, names: seq<string>, end: string)
    decreases |names|
  {
    if names == [] then name == end
    else names[0] == name && name != "" && name in st && Leads(st, st[name].proxy, names[1..], end)
  }

  lemma {:induction false} OnePath(st: Table, name: string, a: seq<string>, b: seq<string>)
    requires Leads(st, name, a, "") && Leads(st, name, b, "")
    ensures a == b
    decreases |a|
  {
    if a != [] && b != [] {
      OnePath(st, st[name].proxy, a[1..], b[1..]);
      assert a == [name] + a[1..] && b == [name] + b[1..];
    }
  }

  lemma {:induction false} Suffix(st: Table, name: string, names: seq<string>, end: string, i: nat)
    requires Leads(st, name, names, end) && i < |names|
    ensures Leads(st, names[i], names[i..], end)
    decreases i
  {
    if i > 0 {
      Suffix(st, st[name].proxy, names[1..], end, i - 1);
      assert names[1..][i - 1..] == names[i..];
    }
  }

  /** A path that reaches the empty name repeats nothing. */
  lemma {:induction false} NoRepeat(st: Table, name: string, names: seq<string>, i: nat, j: nat)
    requires Leads(st, name, names, "") && i < j < |names|
    ensures names[i] != names[j]
  {
    if names[i] == names[j] {
      Suffix(st, name, names, "", i);
      Suffix(st, name, names, "", j);
      OnePath(st, names[i], names[i..], names[j..]);
      assert false;
    }
  }

  lemma NotAgain(st: Table, name: string, names: seq<string>)
    requires Leads(st, name, names, "") && names != []
    ensures name !in names[1..]
  {
    forall n | n in names[1..]
      ensures n != name
    {
      var j :| 0 <= j < |names[1..]| && names[1..][j] == n;
      NoRepeat(st, name, names, 0, j + 1);
    }
  }

  /** The walk reaches the end exactly along a path that does, avoiding what was
      seen before: no bound on the number of hops is involved. */
  lemma {:induction false} ReachedIffPath(st: Table, name: string, seen: set<string>, names: seq<string>)
    ensures Walk(st, name, seen) == Reached(names)
        <==> Leads(st, name, names, "") && forall n | n in names :: n !in seen
    decreases |st.Keys - seen|
  {
    if name != "" && name !in seen && name in st {
      assert st.Keys - (seen + {name}) == st.Keys - seen - {name};
      if names != [] {
        ReachedIffPath(st, st[name].proxy, seen + {name}, names[1..]);
        if names[0] == name {
          assert names == [name] + names[1..];
          if Leads(st, name, names, "") { NotAgain(st, name, names); }
        }
      }
    } else if names != [] {
      assert names[0] in names;
    }
  }

  /** When the walk fails, it has followed a path to the offending name: one that
      is not stored, or one met before. */
  lemma {:induction false} FailureWitness(st: Table, name: string, seen: set<string>) returns (names: seq<string>)
    requires !Walk(st, name, seen).Reached?
    ensures var t := Walk(st, name, seen);
      && (t.Missing? ==> Leads(st, name, names, t.name) && t.name != "" && t.name !in st)
      && (t.Cycle? ==> Leads(st, name, names, t.at) && (t.at in names || t.at in seen))
    decreases |st.Keys - seen|
  {
    if name !in seen && name in st {
      assert st.Keys - (seen + {name}) == st.Keys - seen - {name};
      var rest := FailureWitness(st, st[name].proxy, seen + {name});
      names := [name] + rest;
      assert names[1..] == rest;
    } else {
      names := [];
    }
  }

  // ---- the two resolvers agree ----

  /** The dialer succeeds on a stored profile exactly when the daemon does and the
      profile's own name does not come up again behind it; the daemon's chain is
      then the profile followed by the dialer's. */
  lemma DialerIffDaemon(st: Table, name: string, names: seq<string>)
    requires name != "" && name in st
    ensures Walk(st, st[name].proxy, {st[name].name}) == Reached(names)
        <==> Walk(st, name, {}) == Reached([name] + names) && st[name].name !in names
  {
    var p := st[name];
    ReachedIffPath(st, p.proxy, {p.name}, names);
    ReachedIffPath(st, name, {}, [name] + names);
    assert ([name] + names)[1..] == names;
  }

  /** For a profile stored under its own name the outcomes match in every case,
      failures included. */
  lemma ChainsAgree(st: Table, name: string)
    requires name != "" && name in st && st[name].name == name
    ensures Walk(st, name, {}) == Prepend(name, Walk(st, st[name].proxy, {st[name].name}))
  {
    assert {} + {name} == {name};
  }

  /** Stored under another name, a profile can be live for the daemon and a cycle
      for the dialer. */
  lemma ChainsDisagree(p: Profile, q: Profile) returns (st: Table)
    requires p.proxy == "b" && p.name == "b" && q.proxy == ""
    ensures "a" in st && st["a"] == p
    ensures Walk(st, "a", {}) == Reached(["a", "b"])
    ensures Walk(st, st["a"].proxy, {st["a"].name}) == Cycle("b")
  {
    st := map["a" := p, "b" := q];
    assert "a" != "b";
    assert Leads(st, "", [], "");
    assert Leads(st, "b", ["b"], "") by { assert ["b"][1..] == []; }
    assert Leads(st, "a", ["a", "b"], "") by { assert ["a", "b"][1..] == ["b"]; }
    ReachedIffPath(st, "a", {}, ["a", "b"]);
  }

  // ---- revalidation ----

  predicate SameIdentity(a: Profile, b: Profile) {
    && a.host == b.host && a.port == b.port && a.user == b.user
    && a.auth == b.auth && a.proxy == b.proxy
    && a.password == b.password && a.keyPath == b.keyPath
    && a.keyPassphrase == b.keyPassphrase
  }

  /** ensureProfileLive on a freshly loaded store. */
  method EnsureLive(st: Table, name: string, snapshot: seq<Profile>) returns (live: bool)
    ensures live <==> StillThere(st, name, snapshot)
    ensures live <==> var t := Walk(st, name, {});
      && t.Reached? && |t.names| == |snapshot|
      && forall i | 0 <= i < |snapshot| :: var p, q := st[t.names[i]], snapshot[i];
           && p.host == q.host && p.port == q.port && p.user == q.user && p.auth == q.auth
           && p.password == q.password && p.keyPath == q.keyPath && p.keyPassphrase == q.keyPassphrase
           && p.proxy == q.proxy
  {
    var r := DaemonChain(st, name);
    if !r.Resolved? {
      return false;
    }
    var chain := r.profiles;
    if |chain| != |snapshot| {
      return false;
    }
    for i := 0 to |chain|
      invariant forall j | 0 <= j < i :: SameIdentity(chain[j], snapshot[j])
    {
      if !SameIdentity(chain[i], snapshot[i]) {
        return false;
      }
    }
    return true;
  }

  predicate StillThere(st: Table, name: string, snapshot: seq<Profile>) {
    var t := Walk(st, name, {});
    && t.Reached? && |t.names| == |snapshot|
    && forall i | 0 <= i < |snapshot| :: SameIdentity(st[t.names[i]], snapshot[i])
  }

  /** A chain is accepted exactly when it visits the same store names as the one the
      daemon was started with, and every entry on it still has the same host, port,
      user, credentials and proxy. The dialer would then take the same hops. */
  lemma LiveMeansSameChain(was: Table, st: Table, name: string, names: seq<string>)
    requires Walk(was, name, {}) == Reached(names) && forall n | n in names :: n in was
    ensures StillThere(st, name, Entries(was, names)) <==>
      && Walk(st, name, {}) == Reached(names)
      && forall n | n in names :: n in st && var p, q := st[n], was[n];
           && p.host == q.host && p.port == q.port && p.user == q.user && p.auth == q.auth
           && p.password == q.password && p.keyPath == q.keyPath && p.keyPassphrase == q.keyPassphrase
           && p.proxy == q.proxy
    ensures StillThere(st, name, Entries(was, names)) && name != "" ==>
      && names != [] && name in st
      && (st[name].name == name ==> Walk(st, st[name].proxy, {st[name].name}) == Reached(names[1..]))
  {
    if StillThere(st, name, Entries(was, names)) {
      AcceptedIsSame(was, st, name, names);
      DialerSees(st, name, names);
    }
  }

  lemma AcceptedIsSame(was: Table, st: Table, name: string, names: seq<string>)
    requires Walk(was, name, {}) == Reached(names) && forall n | n in names :: n in was
    requires StillThere(st, name, Entries(was, names))
    ensures Walk(st, name, {}) == Reached(names)
    ensures forall n | n in names :: n in st && SameIdentity(st[n], was[n])
  {
    var t := Walk(st, name, {});
    ReachedIffPath(was, name, {}, names);
    ReachedIffPath(st, name, {}, t.names);
    assert forall i | 0 <= i < |names| :: SameIdentity(st[t.names[i]], was[names[i]]);
    SameNames(was, st, name, names, t.names);
    forall n | n in names
      ensures n in st && SameIdentity(st[n], was[n])
    {
      var i :| 0 <= i < |names| && names[i] == n;
      assert t.names[i] == n;
    }
  }

  lemma DialerSees(st: Table, name: string, names: seq<string>)
    requires Walk(st, name, {}) == Reached(names)
    ensures name != "" ==> names != [] && name in st
    ensures name != "" && st[name].name == name ==>
      Walk(st, st[name].proxy, {st[name].name}) == Reached(names[1..])
  {
    if name != "" {
      assert names == [name] + names[1..];
      DialerIffDaemon(st, name, names[1..]);
      ReachedIffPath(st, name, {}, names);
      NotAgain(st, name, names);
    }
  }

  lemma {:induction false} SameNames(was: Table, st: Table, name: string, a: seq<string>, b: seq<string>)
    requires Leads(was, name, a, "") && Leads(st, name, b, "") && |a| == |b|
    requires forall i | 0 <= i < |a| :: a[i] in was && b[i] in st && SameIdentity(st[b[i]], was[a[i]])
    ensures a == b
    decreases |a|
  {
    if a != [] {
      assert SameIdentity(st[b[0]], was[a[0]]);
      SameNames(was, st, was[name].proxy, a[1..], b[1..]);
      assert a == [name] + a[1..] && b == [name] + b[1..];
    }
  }
}
