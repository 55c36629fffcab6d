/** The three files kept under the lock-reload-rename discipline. */
module SharedFiles {
  import opened Optional
  import opened LockedFile
  import opened Profiles

  // ---- store/store.go ----

  const StoreSpec: Spec<Table, Change> := Spec(map[], Updated, true, false)

  /** For the store a reused handle is always wrong: whatever the two updates are,
      the file is not what the one that was reported saved makes of an empty store,
      because the other is in it too. */
  lemma StorePhantom(first: Change, second: Change) returns (run: seq<Step<Change>>)
    requires Updated(map[], first).Some? && Updated(Updated(map[], first).value, second).Some?
    ensures Legal(StoreSpec, Init<Table, Change>(None), run)
    ensures var s := After(StoreSpec, Init<Table, Change>(None), run);
      s.log == [second] && s.disk.Some? && Replay(StoreSpec, None, s.log) != Some(s.disk)
  {
    run := ReuseWritesBoth(StoreSpec, first, second);
    ReplayOne(StoreSpec, None, second);
    AloneAndAfter(first, second);
  }

  /** Only an Add succeeds on an empty table, and a second one keeps the first. */
  lemma AloneAndAfter(first: Change, second: Change)
    requires Updated(map[], first).Some? && Updated(Updated(map[], first).value, second).Some?
    ensures Updated(map[], second) != Updated(Updated(map[], first).value, second)
  {
    if second.Add? {
      assert first.p.name in Updated(Updated(map[], first).value, second).value;
      assert first.p.name !in Updated(map[], second).value;
    }
  }

  // ---- internal/config.go: Set ----

  datatype Setting = Setting(key: string, value: string)

  function Configured(m: map<string, string>, u: Setting): Option<map<string, string>> {
    if u.value == "" then Some(m - {u.key}) else Some(m[u.key := u.value])
  }

  const ConfigSpec: Spec<map<string, string>, Setting> := Spec(map[], Configured, true, false)

  /** For the config a reused handle is right exactly when the failed setting was a
      removal or is overwritten by the next one. */
  lemma ConfigPhantom(first: Setting, second: Setting) returns (run: seq<Step<Setting>>)
    ensures Legal(ConfigSpec, Init<map<string, string>, Setting>(None), run)
    ensures var s := After(ConfigSpec, Init<map<string, string>, Setting>(None), run);
      && s.log == [second]
      && (Replay(ConfigSpec, None, s.log) == Some(s.disk) <==> first.value == "" || first.key == second.key)
  {
    run := ReuseWritesBoth(ConfigSpec, first, second);
    ReplayOne(ConfigSpec, None, second);
    var both, alone := Configured(Configured(map[], first).value, second).value, Configured(map[], second).value;
    if first.value == "" || first.key == second.key {
      assert both == alone;
    } else {
      assert first.key in both && first.key !in alone;
    }
  }

  /** The config file loses no update: it is the renamed settings, one at a time. */
  lemma ConfigNoLostUpdates(start: Option<map<string, string>>, run: seq<Step<Setting>>)
    requires Legal(ConfigSpec, Init(start), run) && NeverReuses(ConfigSpec, Init(start), run)
    ensures var s := After(ConfigSpec, Init(start), run); Replay(ConfigSpec, start, s.log) == Some(s.disk)
  {
    NoLostUpdates(ConfigSpec, start, run);
  }

  // ---- internal/daemonstate/daemonstate.go: SetEntry, SetMessage, DeleteEntry ----

  datatype Entry = Entry(port: int, pid: int, status: string, message: string, token: string)

  datatype EntryUpdate =
    | SetEntry(name: string, e: Entry)
    | SetMessage(name: string, message: string)
    | DeleteEntry(name: string)

  function Recorded(m: map<string, Entry>, u: EntryUpdate): Option<map<string, Entry>> {
    match u
    case SetEntry(name, e) => Some(m[name := e])
    case SetMessage(name, message) =>
      if name in m then Some(m[name := m[name].(message := message)]) else Some(m)
    case DeleteEntry(name) => Some(m - {name})
  }

  /** A state file that cannot be read counts as empty, and the update goes on. */
  const DaemonStateSpec: Spec<map<string, Entry>, EntryUpdate> := Spec(map[], Recorded, false, true)

  /** The entries an update is about; a message is not about an entry, as it must not
      create one. */
  function Subject(u: EntryUpdate): set<string> {
    match u
    case SetEntry(name, _) => {name}
    case SetMessage(_, _) => {}
    case DeleteEntry(name) => {name}
  }

  /** An update made on a file that could not be read is renamed over it while it
      holds other entries. */
  ghost predicate Drops(s: State<map<string, Entry>, EntryUpdate>, step: Step<EntryUpdate>) {
    && step.Install? && Enabled(DaemonStateSpec, s, step) && s.procs[step.p].blind
    && s.disk.Some? && !(s.disk.value.Keys <= Subject(s.procs[step.p].pc.op))
  }

  lemma SameOnEmpty(m: map<string, Entry>, u: EntryUpdate)
    ensures Recorded(m, u) == Recorded(map[], u) <==> m.Keys <= Subject(u)
  {
    var after, alone := Recorded(m, u).value, Recorded(map[], u).value;
    forall n | n in m
      ensures n !in Subject(u) ==> n in after && n !in alone
    {
    }
    if m.Keys <= Subject(u) {
      assert after.Keys == alone.Keys;
      assert after == alone;
    }
  }

  lemma DropsIffOverwrites(s: State<map<string, Entry>, EntryUpdate>, step: Step<EntryUpdate>)
    ensures Drops(s, step) <==> Overwrites(DaemonStateSpec, s, step)
  {
    if step.Install? && Enabled(DaemonStateSpec, s, step) {
      SameOnEmpty(Held(DaemonStateSpec, s.disk), s.procs[step.p].pc.op);
    }
  }

  ghost predicate NeverDrops(s: State<map<string, Entry>, EntryUpdate>, run: seq<Step<EntryUpdate>>)
    requires Legal(DaemonStateSpec, s, run)
    decreases |run|
  {
    run == [] || (!Drops(s, run[0]) && NeverDrops(LockedFile.Apply(DaemonStateSpec, s, run[0]), run[1..]))
  }

  lemma {:induction false} DropsAre(s: State<map<string, Entry>, EntryUpdate>, run: seq<Step<EntryUpdate>>)
    requires Legal(DaemonStateSpec, s, run)
    ensures NeverDrops(s, run) <==> NeverOverwrites(DaemonStateSpec, s, run)
    ensures NeverReuses(DaemonStateSpec, s, run)
    decreases |run|
  {
    if run != [] {
      DropsIffOverwrites(s, run[0]);
      DropsAre(LockedFile.Apply(DaemonStateSpec, s, run[0]), run[1..]);
    }
  }

  /** For state files: the file is at every point the updates that were renamed into
      place, one at a time, exactly when no update made without reading the file is
      renamed over other entries. */
  lemma DaemonStateFaithfulIff(start: Option<map<string, Entry>>, run: seq<Step<EntryUpdate>>)
    requires Legal(DaemonStateSpec, Init(start), run)
    ensures Faithful(DaemonStateSpec, start, Init(start), run) <==> NeverDrops(Init(start), run)
  {
    DropsAre(Init(start), run);
    FaithfulIffNoOverwrite(DaemonStateSpec, start, run);
  }

  /** One unreadable moment is enough: a single acknowledged update takes every other
      entry with it. */
  lemma DaemonStateDropped(was: map<string, Entry>, u: EntryUpdate) returns (run: seq<Step<EntryUpdate>>)
    requires !(was.Keys <= Subject(u))
    ensures Legal(DaemonStateSpec, Init(Some(was)), run)
    ensures var s := After(DaemonStateSpec, Init(Some(was)), run);
      && s.acked == [u] && s.disk.Some? && s.disk.value.Keys <= Subject(u)
      && Replay(DaemonStateSpec, Some(was), s.log) != Some(s.disk)
  {
    run := BlindUpdate(DaemonStateSpec, was, u);
    ReplayOne(DaemonStateSpec, Some(was), u);
    SameOnEmpty(was, u);
  }

  /** Progress messages never resurrect an entry: over any sequence of updates, an
      entry is present only if the last SetEntry or DeleteEntry for its name set
      it, or none came and it was there from the start. */
  predicate Present(had: bool, name: string, us: seq<EntryUpdate>)
    decreases |us|
  {
    if us == [] then had
    else match us[|us| - 1]
      case SetEntry(n, _) => n == name || Present(had, name, us[..|us| - 1])
      case DeleteEntry(n) => n != name && Present(had, name, us[..|us| - 1])
      case SetMessage(_, _) => Present(had, name, us[..|us| - 1])
  }

  lemma {:induction false} NoResurrection(start: Option<map<string, Entry>>, us: seq<EntryUpdate>, name: string)
    ensures var end := Replay(DaemonStateSpec, start, us);
      end.Some?
      && (name in Held(DaemonStateSpec, end.value) <==> Present(name in Held(DaemonStateSpec, start), name, us))
    decreases |us|
  {
    if us != [] {
      NoResurrection(start, us[..|us| - 1], name);
    }
  }

  function Reworded(e: Option<Entry>, message: Option<string>): Option<Entry> {
    if e.Some? && message.Some? then Some(e.value.(message := message.value)) else e
  }

  /** What an entry holds after a sequence of updates, told from the last one back: it
      is that of the last SetEntry for it, unless it was deleted since, with the message
      of the last SetMessage since then, if any. */
  function EntryAfter(was: Option<Entry>, name: string, us: seq<EntryUpdate>, message: Option<string>): Option<Entry>
    decreases |us|
  {
    if us == [] then Reworded(was, message)
    else
      var rest := us[..|us| - 1];
      match us[|us| - 1]
      case SetEntry(n, e) =>
        if n != name then EntryAfter(was, name, rest, message)
        else Reworded(Some(e), message)
      case DeleteEntry(n) => if n == name then None else EntryAfter(was, name, rest, message)
      case SetMessage(n, text) =>
        EntryAfter(was, name, rest, if n == name && message.None? then Some(text) else message)
  }

  function Lookup(m: map<string, Entry>, name: string): Option<Entry> {
    if name in m then Some(m[name]) else None
  }

  lemma {:induction false} LastUpdatesWin(start: Option<map<string, Entry>>, us: seq<EntryUpdate>, name: string, message: Option<string>)
    ensures var end := Replay(DaemonStateSpec, start, us);
      && end.Some?
      && Reworded(Lookup(Held(DaemonStateSpec, end.value), name), message)
         == EntryAfter(Lookup(Held(DaemonStateSpec, start), name), name, us, message)
    decreases |us|
  {
    if us != [] {
      var rest, u := us[..|us| - 1], us[|us| - 1];
      var earlier :=
        if u.SetMessage? && u.name == name && message.None? then Some(u.message) else message;
      LastUpdatesWin(start, rest, name, earlier);
      OneUpdate(Held(DaemonStateSpec, Replay(DaemonStateSpec, start, rest).value), u, name);
    }
  }

  /** One update sets, deletes or rewords the entry it names and no other. */
  lemma OneUpdate(m: map<string, Entry>, u: EntryUpdate, name: string)
    ensures Recorded(m, u).Some?
    ensures var after := Lookup(Recorded(m, u).value, name);
      if u.name != name then after == Lookup(m, name)
      else match u
        case SetEntry(_, e) => after == Some(e)
        case SetMessage(_, text) => after == Reworded(Lookup(m, name), Some(text))
        case DeleteEntry(_) => after == None
  {}

  /** In every state of a run without drops, an entry is what its last updates say. */
  lemma EntryInFile(start: Option<map<string, Entry>>, run: seq<Step<EntryUpdate>>, name: string)
    requires Legal(DaemonStateSpec, Init(start), run) && NeverDrops(Init(start), run)
    ensures var s := After(DaemonStateSpec, Init(start), run);
      Lookup(Held(DaemonStateSpec, s.disk), name)
        == EntryAfter(Lookup(Held(DaemonStateSpec, start), name), name, s.log, None)
  {
    DaemonStateFaithfulIff(start, run);
    FaithfulAtEnd(DaemonStateSpec, start, Init(start), run);
    LastUpdatesWin(start, After(DaemonStateSpec, Init(start), run).log, name, None);
  }
}
