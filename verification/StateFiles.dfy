/** The config object and the daemon state file object: JSON maps on disk that
    are reloaded, changed and replaced under the file lock. */
module StateFiles {
  import opened Optional
  import opened LockedFile
  import opened SharedFiles

  /** A file that does not parse may still yield some of its entries. */
  datatype Content<S> = Parsed(m: S) | Garbage(partial: S)

  class DiskFile<!S> {
    var content: Option<Content<S>>

    constructor (content: Option<Content<S>>)
      ensures this.content == content
    {
      this.content := content;
    }
  }

  /** Which operating system calls succeed. */
  datatype Io = Io(lock: bool, read: bool, write: bool)
  {
    predicate AllOk() { lock && read && write }
  }

  // ---- internal/config.go ----

  class Config {
    const file: DiskFile<map<string, string>>
    var data: map<string, string>
    var loadErr: bool

    /** OpenConfig: anything but a missing or a good file is remembered as an error. */
    constructor (file: DiskFile<map<string, string>>, io: Io)
      ensures this.file == file
      ensures loadErr <==> !io.lock || (file.content.Some? && !(io.read && file.content.value.Parsed?))
      ensures data == if !loadErr && file.content.Some? then file.content.value.m else map[]
    {
      this.file, data, loadErr := file, map[], false;
      new;
      if !io.lock {
        loadErr := true;
        return;
      }
      if file.content.None? {
        return;
      }
      if !io.read || file.content.value.Garbage? {
        loadErr := true;
        return;
      }
      data := file.content.value.m;
    }

    /** The map a change starts from: the file, or the memory if there is none. */
    ghost function Base(): map<string, string>
      reads this, file
    {
      if file.content.Some? && file.content.value.Parsed? then file.content.value.m else data
    }

    method Get(key: string) returns (value: string)
      ensures value == if key in data then data[key] else ""
    {
      value := if key in data then data[key] else "";
    }

    method ReloadLocked(io: Io) returns (ok: bool)
      modifies this
      ensures ok <==> file.content.None? || (io.read && file.content.value.Parsed?)
      ensures data == if ok then old(Base()) else old(data)
      ensures loadErr == (if ok then false else old(loadErr))
    {
      if file.content.None? {
        loadErr := false;
        return true;
      }
      if !io.read || file.content.value.Garbage? {
        return false;
      }
      data := file.content.value.m;
      loadErr := false;
      return true;
    }

    /** A success is exactly the one change of the file; a failure leaves the file
        alone. A handle that could not load, and a file that does not parse, are
        never written. */
    method Set(key: string, value: string, io: Io) returns (ok: bool)
      modifies this, file
      ensures ok ==>
        && Configured(old(Base()), Setting(key, value)) == Some(data)
        && data == (if value == "" then old(Base()) - {key} else old(Base())[key := value])
        && file.content == Some(Parsed(data))
      ensures !ok ==> file.content == old(file.content)
      ensures loadErr == old(loadErr)
      ensures old(loadErr) ==> !ok && data == old(data)
      ensures file.content.Some? && file.content.value.Garbage? ==> !ok
      ensures io.AllOk() ==> (ok <==> !old(loadErr) && !(old(file.content).Some? && old(file.content).value.Garbage?))
    {
      if loadErr || !io.lock {
        return false;
      }
      ok := ReloadLocked(io);
      if !ok {
        return false;
      }
      if value == "" {
        data := data - {key};
      } else {
        data := data[key := value];
      }
      if !io.write {
        return false;
      }
      file.content := Some(Parsed(data));
      return true;
    }
  }

  /** A fresh handle reads back what another has set, the empty string standing
      for a key that is not set. */
  method SetThenGet(c: Config, key: string, value: string, io: Io, io': Io) returns (ok: bool, got: string)
    requires io'.lock && io'.read
    modifies c, c.file
    ensures ok ==> got == value
  {
    ok := c.Set(key, value, io);
    var d := new Config(c.file, io');
    got := d.Get(key);
  }

  function LastSetting(was: string, key: string, us: seq<Setting>): string
    decreases |us|
  {
    if us == [] then was
    else if us[|us| - 1].key == key then us[|us| - 1].value
    else LastSetting(was, key, us[..|us| - 1])
  }

  function Value(m: map<string, string>, key: string): string {
    if key in m then m[key] else ""
  }

  /** Over any updates of any number of processes, a key has the value of the last
      one for it, and no update stores an empty value. */
  lemma {:induction false} LastSettingWins(start: Option<map<string, string>>, us: seq<Setting>, key: string)
    ensures var end := Replay(ConfigSpec, start, us);
      && end.Some?
      && ("" !in Held(ConfigSpec, start).Values ==> "" !in Held(ConfigSpec, end.value).Values)
      && Value(Held(ConfigSpec, end.value), key) == LastSetting(Value(Held(ConfigSpec, start), key), key, us)
    decreases |us|
  {
    if us != [] {
      LastSettingWins(start, us[..|us| - 1], key);
    }
  }

  // ---- internal/daemonstate/daemonstate.go ----

  class StateFile {
    const file: DiskFile<map<string, Entry>>

    constructor (file: DiskFile<map<string, Entry>>)
      ensures this.file == file
    {
      this.file := file;
    }

    /** A read without the lock: whatever cannot be read counts as empty. */
    function Entries(read: bool): map<string, Entry>
      reads this, file
    {
      if !read || file.content.None? then map[]
      else match file.content.value
        case Parsed(m) => m
        case Garbage(partial) => partial
    }

    /** Runs `fn` on the map and replaces the file, unless `fn` fails. */
    method With(fn: map<string, Entry> -> Option<map<string, Entry>>, io: Io) returns (ok: bool)
      modifies file
      ensures ok <==> io.lock && io.write && fn(old(Entries(io.read))).Some?
      ensures file.content == if ok then Some(Parsed(fn(old(Entries(io.read))).value)) else old(file.content)
    {
      if !io.lock {
        return false;
      }
      var m := fn(Entries(io.read));
      if m.None? || !io.write {
        return false;
      }
      file.content := Some(Parsed(m.value));
      return true;
    }

    method SetEntry(name: string, e: Entry, io: Io) returns (ok: bool)
      modifies file
      ensures ok <==> io.lock && io.write
      ensures ok ==> Recorded(old(Entries(io.read)), EntryUpdate.SetEntry(name, e)) == Some(Entries(true))
      ensures ok ==> Entries(true) == old(Entries(io.read))[name := e]
      ensures !ok ==> file.content == old(file.content)
    {
      ok := With(m => Some(m[name := e]), io);
    }

    method SetMessage(name: string, message: string, io: Io) returns (ok: bool)
      modifies file
      ensures ok <==> io.lock && io.write
      ensures ok ==> Recorded(old(Entries(io.read)), EntryUpdate.SetMessage(name, message)) == Some(Entries(true))
      ensures ok ==> Entries(true).Keys == old(Entries(io.read)).Keys
      ensures ok ==> forall n | n in Entries(true) && n != name :: Entries(true)[n] == old(Entries(io.read))[n]
      ensures ok && name in Entries(true) ==>
        Entries(true)[name] == old(Entries(io.read))[name].(message := message)
      ensures !ok ==> file.content == old(file.content)
    {
      ok := With((m: map<string, Entry>) =>
                   Some(if name in m then m[name := m[name].(message := message)] else m), io);
    }

    method DeleteEntry(name: string, io: Io) returns (ok: bool)
      modifies file
      ensures ok <==> io.lock && io.write
      ensures ok ==> Recorded(old(Entries(io.read)), EntryUpdate.DeleteEntry(name)) == Some(Entries(true))
      ensures ok ==> Entries(true) == old(Entries(io.read)) - {name}
      ensures !ok ==> file.content == old(file.content)
    {
      ok := With((m: map<string, Entry>) => Some(m - {name}), io);
    }
  }
}
