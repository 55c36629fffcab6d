/** Connection profiles, their validation, and the updates the store makes to them. */
module Profiles {
  import opened Optional

  datatype Profile = Profile(
    name: string, host: string, port: int, user: string, auth: string,
    password: string, keyPath: string, keyPassphrase: string, proxy: string,
    options: map<string, string>, tags: seq<string>,
    createdAt: nat, updatedAt: nat, lastUsed: nat, connectionCount: nat)

  type Table = map<string, Profile>

  // ---- store/types.go ----

  predicate NameChar(c: char) {
    'a' <= c <= 'z' || 'A' <= c <= 'Z' || '0' <= c <= '9' || c == '-' || c == '_' || c == '.'
  }

  /** Names that are safe as the stem of a socket or PID file. */
  predicate ValidName(name: string) {
    && 1 <= |name| <= 64
    && (forall i | 0 <= i < |name| :: NameChar(name[i]))
    && name[0] != '.' && name[|name| - 1] != '.'
  }

  datatype NameError = BadLength | ControlChar(at: nat) | BadChar(at: nat) | DotAtEnd

  method ValidateProfileName(name: string) returns (err: Option<NameError>)
    ensures err.None? <==> ValidName(name)
    ensures err.Some? && (err.value.BadChar? || err.value.ControlChar?) ==>
      err.value.at < |name| && !NameChar(name[err.value.at])
      && forall i | 0 <= i < err.value.at :: NameChar(name[i])
  {
    if |name| == 0 || |name| > 64 {
      return Some(BadLength);
    }
    for i := 0 to |name|
      invariant forall j | 0 <= j < i :: NameChar(name[j])
    {
      var c := name[i];
      if 'a' <= c <= 'z' { continue; }
      if 'A' <= c <= 'Z' { continue; }
      if '0' <= c <= '9' { continue; }
      if c == '-' || c == '_' || c == '.' { continue; }
      if c as int <= 0x1f || c as int == 0x7f {
        return Some(ControlChar(i));
      }
      return Some(BadChar(i));
    }
    if name[0] == '.' || name[|name| - 1] == '.' {
      return Some(DotAtEnd);
    }
    return None;
  }

  /** Accepted names stay inside their directory as a file stem: they hold no path
      separator or control character and are no dot name. */
  lemma NamesAreSafe(name: string)
    requires ValidName(name)
    ensures '/' !in name && '\\' !in name && name !in {"", ".", ".."} && name[0] != '.' && |name| <= 64
    ensures forall c | c in name :: 0x20 < c as int < 0x7f
  {}

  /** And nothing else is refused: letters, digits, dashes, underscores and inner dots. */
  lemma PlainNamesAreValid(name: string)
    requires 1 <= |name| <= 64
    requires forall c | c in name ::
      'a' <= c <= 'z' || 'A' <= c <= 'Z' || '0' <= c <= '9' || c in {'-', '_', '.'}
    ensures ValidName(name) <==> name[0] != '.' && name[|name| - 1] != '.'
  {
    assert forall i | 0 <= i < |name| :: name[i] in name;
  }

  datatype ProfileError = InvalidName | NoHost | InvalidPort | NoUser | InvalidAuth | NoPassword | NoKeyPath

  /** The first thing that is wrong with a profile. */
  method Validate(p: Profile) returns (err: Option<ProfileError>)
    ensures err.None? <==> ValidProfile(p)
    ensures err.None? <==>
      && ValidName(p.name) && p.host != "" && p.user != "" && 0 < p.port < 65536
      && ((p.auth == "password" && p.password != "") || (p.auth == "key" && p.keyPath != "")
          || p.auth == "agent" || p.auth == "keyboard-interactive")
    ensures err == Some(NoHost) ==> p.host == ""
    ensures err == Some(InvalidPort) ==> p.port < 1 || p.port > 65535
    ensures err == Some(NoUser) ==> p.user == ""
    ensures err == Some(NoPassword) ==> p.auth == "password" && p.password == ""
    ensures err == Some(NoKeyPath) ==> p.auth == "key" && p.keyPath == ""
    ensures err == Some(InvalidName) <==> !ValidName(p.name)
  {
    var named := ValidateProfileName(p.name);
    if named.Some? {
      return Some(InvalidName);
    }
    if p.host == "" {
      return Some(NoHost);
    }
    if p.port < 1 || p.port > 65535 {
      return Some(InvalidPort);
    }
    if p.user == "" {
      return Some(NoUser);
    }
    if p.auth !in {"password", "key", "agent", "keyboard-interactive"} {
      return Some(InvalidAuth);
    }
    if p.auth == "password" && p.password == "" {
      return Some(NoPassword);
    }
    if p.auth == "key" && p.keyPath == "" {
      return Some(NoKeyPath);
    }
    return None;
  }

  predicate ValidProfile(p: Profile) {
    && ValidName(p.name) && p.host != "" && 1 <= p.port <= 65535 && p.user != ""
    && p.auth in {"password", "key", "agent", "keyboard-interactive"}
    && (p.auth == "password" ==> p.password != "")
    && (p.auth == "key" ==> p.keyPath != "")
  }

  // ---- store/store.go: Add, Update, Delete, Rename, Touch ----

  /** `now` is the clock reading taken inside the critical section. */
  datatype Change =
    | Add(p: Profile, now: nat)
    | Replace(name: string, p: Profile, now: nat)
    | Delete(name: string)
    | Rename(source: string, target: string, now: nat)
    | Touch(name: string, now: nat)

  /** The table after an update, or nothing when the update is refused or has
      nothing to save. */
  function Updated(t: Table, u: Change): Option<Table> {
    match u
    case Add(p, now) =>
      if !ValidProfile(p) || p.name in t then None
      else Some(t[p.name := p.(createdAt := now, updatedAt := now)])
    case Replace(name, p, now) =>
      if !ValidProfile(p) || name !in t then None
      else
        var prior := t[name];
        Some(t[name := p.(updatedAt := now, createdAt := prior.createdAt,
                          lastUsed := if p.lastUsed == 0 then prior.lastUsed else p.lastUsed,
                          connectionCount := if p.connectionCount == 0 then prior.connectionCount
                                             else p.connectionCount)])
    case Delete(name) => if name !in t then None else Some(t - {name})
    case Rename(source, target, now) =>
      if target == "" || source == target || source !in t || target in t
         || !ValidProfile(t[source].(name := target)) then None
      else Some((t - {source})[target := t[source].(name := target, updatedAt := now)])
    case Touch(name, now) =>
      if name !in t then None
      else Some(t[name := t[name].(lastUsed := now, connectionCount := t[name].connectionCount + 1)])
  }

  // ---- what the updates do to the table ----

  /** Two tables are the same but for some names. */
  predicate SameBut(t: Table, v: Table, names: set<string>) {
    && (forall n | n in t && n !in names :: n in v && v[n] == t[n])
    && (forall n | n in v && n !in names :: n in t)
  }

  predicate Added(t: Table, v: Table, p: Profile, now: nat) {
    && ValidProfile(p) && p.name !in t && p.name in v && SameBut(t, v, {p.name})
    && v[p.name].createdAt == now && v[p.name].updatedAt == now
    && v[p.name].(createdAt := p.createdAt, updatedAt := p.updatedAt) == p
  }

  predicate Replaced(t: Table, v: Table, name: string, p: Profile, now: nat) {
    && ValidProfile(p) && name in t && name in v && SameBut(t, v, {name})
    && v[name].updatedAt == now && v[name].createdAt == t[name].createdAt
    && v[name].lastUsed == (if p.lastUsed != 0 then p.lastUsed else t[name].lastUsed)
    && v[name].connectionCount == (if p.connectionCount != 0 then p.connectionCount else t[name].connectionCount)
    && v[name].(createdAt := p.createdAt, updatedAt := p.updatedAt, lastUsed := p.lastUsed,
                connectionCount := p.connectionCount) == p
  }

  predicate Deleted(t: Table, v: Table, name: string) {
    name in t && name !in v && SameBut(t, v, {name})
  }

  predicate Renamed(t: Table, v: Table, source: string, target: string, now: nat) {
    && source != target && source in t && target !in t && source !in v && target in v
    && SameBut(t, v, {source, target})
    && ValidProfile(v[target]) && v[target].name == target && v[target].updatedAt == now
    && v[target].(name := t[source].name, updatedAt := t[source].updatedAt) == t[source]
  }

  predicate Touched(t: Table, v: Table, name: string, now: nat) {
    && name in t && name in v && SameBut(t, v, {name})
    && v[name].connectionCount == t[name].connectionCount + 1 && v[name].lastUsed == now
    && v[name].(connectionCount := t[name].connectionCount, lastUsed := t[name].lastUsed) == t[name]
  }

  ghost predicate Became(t: Table, v: Table, u: Change) {
    match u
    case Add(p, now) => Added(t, v, p, now)
    case Replace(name, p, now) => Replaced(t, v, name, p, now)
    case Delete(name) => Deleted(t, v, name)
    case Rename(source, target, now) => Renamed(t, v, source, target, now)
    case Touch(name, now) => Touched(t, v, name, now)
  }

  /** An update has exactly the one result that is described entry by entry, and none
      exactly when there is no such result. */
  lemma UpdatedIff(t: Table, v: Table, u: Change)
    ensures Updated(t, u) == Some(v) <==> Became(t, v, u)
  {
    if Updated(t, u).Some? {
      UpdatedBecomes(t, u);
      if Became(t, v, u) { OneResult(t, v, Updated(t, u).value, u); }
    } else {
      RefusedBecomesNothing(t, v, u);
    }
  }

  lemma UpdatedBecomes(t: Table, u: Change)
    requires Updated(t, u).Some?
    ensures Became(t, Updated(t, u).value, u)
  {}

  lemma RefusedBecomesNothing(t: Table, v: Table, u: Change)
    requires Updated(t, u).None?
    ensures !Became(t, v, u)
  {}

  lemma OneResult(t: Table, v: Table, w: Table, u: Change)
    requires Became(t, v, u) && Became(t, w, u)
    ensures v == w
  {
    forall n
      ensures n in v <==> n in w
      ensures n in v ==> v[n] == w[n]
    {
    }
  }

  /** Every name a profile is stored under passes the check that `load` makes. */
  predicate Loadable(t: Table) {
    forall n | n in t :: ValidName(n)
  }

  lemma UpdatedLoadable(t: Table, u: Change)
    requires Loadable(t) && Updated(t, u).Some?
    ensures Loadable(Updated(t, u).value)
  {}

  /** Renaming there and back restores every entry except the rename times. */
  lemma RenameBack(t: Table, a: string, b: string, now: nat, later: nat)
    requires a in t && ValidProfile(t[a]) && t[a].name == a && Updated(t, Rename(a, b, now)).Some?
    ensures var back := Updated(Updated(t, Rename(a, b, now)).value, Rename(b, a, later));
      back == Some(t[a := t[a].(updatedAt := later)])
  {
    var mid := Updated(t, Rename(a, b, now)).value;
    assert mid[b].(name := a) == t[a].(updatedAt := now);
    assert (mid - {b})[a := t[a].(updatedAt := later)] == t[a := t[a].(updatedAt := later)];
  }
}
