/** The credential store object: a table in memory over an encrypted file. */
module CredentialStore {
  import opened Optional
  import opened Profiles
  import opened Keyring

  class Store {
    const disk: Disk
    const keyring: KeyStore
    var profiles: Table
    var dirty: bool

    /** The objects belong together and the key file holds the key of the store. */
    ghost predicate Valid()
      reads this, keyring, disk
    {
      && keyring.disk == disk
      && Coherent(disk.store, disk.key)
      && (keyring.cached.Some? ==> keyring.cached == disk.key)
      && (keyring.storeExists ==> disk.store.Some?)
      && Loadable(profiles)
    }

    static ghost predicate Coherent(store: Option<Sealed>, key: Option<Key>) {
      store.Some? ==> key == Some(store.value.key) && Loadable(store.value.table)
    }

    /** The table an update starts from: the file, or the memory if there is none. */
    ghost function Base(): Table
      reads this, disk
    {
      if disk.store.Some? then disk.store.value.table else profiles
    }

    /** A handle on `disk` before `Open`. */
    constructor (disk: Disk, keyring: KeyStore)
      ensures this.disk == disk && this.keyring == keyring && profiles == map[] && !dirty
    {
      this.disk, this.keyring := disk, keyring;
      profiles, dirty := map[], false;
    }

    /** Initialisation under the file lock. Whatever other processes have written
        before, opening succeeds and finds their table. */
    method Open(io: Io) returns (ok: bool)
      requires keyring.disk == disk && keyring.cached == None && !keyring.storeExists && profiles == map[]
      requires Coherent(disk.store, disk.key)
      modifies this, keyring, disk`key
      ensures unchanged(disk) && Valid()
      ensures ok ==> profiles == if disk.store.Some? then disk.store.value.table else map[]
      ensures io.AllOk() ==> ok
    {
      if !io.lock {
        return false;
      }
      if disk.store.None? {
        keyring.SetStoreExists(false);
        dirty := true;
        return true;
      }
      keyring.SetStoreExists(true);
      ok := Load(0, io);
    }

    /** Reads and decrypts the file. A key is never created here: the file exists. */
    method Load(fresh_: Key, io: Io) returns (ok: bool)
      requires Valid() && disk.store.Some?
      modifies this`profiles, keyring`cached, disk`key
      ensures Valid() && disk.key == old(disk.key)
      ensures ok ==> profiles == disk.store.value.table
      ensures !ok ==> profiles == old(profiles)
      ensures io.AllOk() ==> ok
    {
      if !io.readStore {
        return false;
      }
      var key := keyring.Get(fresh_, io);
      if key.None? || key.value != disk.store.value.key {
        return false;
      }
      profiles := disk.store.value.table;
      var names := profiles.Keys;
      while names != {}
        invariant names <= profiles.Keys
        modifies {}
      {
        var name :| name in names;
        var err := ValidateProfileName(name);
        if err.Some? {
          assert false;
        }
        names := names - {name};
      }
      return true;
    }

    method ReloadLocked(fresh_: Key, io: Io) returns (ok: bool)
      requires Valid()
      modifies this`profiles, keyring`cached, disk`key
      ensures Valid() && disk.key == old(disk.key)
      ensures ok ==> profiles == old(Base())
      ensures !ok ==> profiles == old(profiles)
      ensures io.AllOk() ==> ok
    {
      if disk.store.None? {
        return true;
      }
      ok := Load(fresh_, io);
    }

    /** Encrypts the table and replaces the file; on failure the file is intact. */
    method Save(fresh_: Key, io: Io) returns (ok: bool)
      requires Valid() && dirty
      modifies this`dirty, keyring`cached, disk
      ensures Valid()
      ensures old(disk.key).Some? ==> disk.key == old(disk.key)
      ensures ok ==> disk.key.Some? && disk.store == Some(Sealed(disk.key.value, profiles)) && !dirty
      ensures !ok ==> disk.store == old(disk.store)
      ensures io.AllOk() ==> ok
    {
      var key := keyring.Get(fresh_, io);
      if key.None? || !io.writeStore {
        return false;
      }
      disk.store := Some(Sealed(key.value, profiles));
      dirty := false;
      return true;
    }

    /** What one update leaves on disk, and in memory when it succeeds. */
    static ghost predicate Outcome(before: Option<Sealed>, base: Table, u: Change,
                                   after: Option<Sealed>, mem: Table, ok: bool)
    {
      if ok then after.Some? && Updated(base, u) == Some(after.value.table) && mem == after.value.table
      else after == before
    }

    method Add(p: Profile, now: nat, fresh_: Key, io: Io) returns (ok: bool)
      requires Valid()
      modifies this, keyring, disk
      ensures Valid() && (old(disk.key).Some? ==> disk.key == old(disk.key))
      ensures Outcome(old(disk.store), old(Base()), Change.Add(p, now), disk.store, profiles, ok)
      ensures ok ==> Added(old(Base()), disk.store.value.table, p, now)
      ensures io.AllOk() ==> (ok <==> ValidProfile(p) && p.name !in old(Base()))
    {
      var err := Validate(p);
      if err.Some? || !io.lock {
        return false;
      }
      ok := ReloadLocked(fresh_, io);
      if !ok || p.name in profiles {
        return false;
      }
      profiles := profiles[p.name := p.(createdAt := now, updatedAt := now)];
      dirty := true;
      ok := Save(fresh_, io);
    }

    method Update(name: string, p: Profile, now: nat, fresh_: Key, io: Io) returns (ok: bool)
      requires Valid()
      modifies this, keyring, disk
      ensures Valid() && (old(disk.key).Some? ==> disk.key == old(disk.key))
      ensures Outcome(old(disk.store), old(Base()), Replace(name, p, now), disk.store, profiles, ok)
      ensures ok ==> Replaced(old(Base()), disk.store.value.table, name, p, now)
      ensures io.AllOk() ==> (ok <==> ValidProfile(p) && name in old(Base()))
    {
      var err := Validate(p);
      if err.Some? || !io.lock {
        return false;
      }
      ok := ReloadLocked(fresh_, io);
      if !ok || name !in profiles {
        return false;
      }
      var existing := profiles[name];
      var q := p.(updatedAt := now, createdAt := existing.createdAt);
      if q.lastUsed == 0 {
        q := q.(lastUsed := existing.lastUsed);
      }
      if q.connectionCount == 0 {
        q := q.(connectionCount := existing.connectionCount);
      }
      profiles := profiles[name := q];
      dirty := true;
      ok := Save(fresh_, io);
    }

    method Delete(name: string, fresh_: Key, io: Io) returns (ok: bool)
      requires Valid()
      modifies this, keyring, disk
      ensures Valid() && (old(disk.key).Some? ==> disk.key == old(disk.key))
      ensures Outcome(old(disk.store), old(Base()), Change.Delete(name), disk.store, profiles, ok)
      ensures ok ==> Deleted(old(Base()), disk.store.value.table, name)
      ensures io.AllOk() ==> (ok <==> name in old(Base()))
    {
      if !io.lock {
        return false;
      }
      ok := ReloadLocked(fresh_, io);
      if !ok || name !in profiles {
        return false;
      }
      profiles := profiles - {name};
      dirty := true;
      ok := Save(fresh_, io);
    }

    method Rename(source: string, target: string, now: nat, fresh_: Key, io: Io) returns (ok: bool)
      requires Valid()
      modifies this, keyring, disk
      ensures Valid() && (old(disk.key).Some? ==> disk.key == old(disk.key))
      ensures source != target ==>
        Outcome(old(disk.store), old(Base()), Change.Rename(source, target, now), disk.store, profiles, ok)
      ensures source != target && ok ==> Renamed(old(Base()), disk.store.value.table, source, target, now)
      ensures source == target ==> disk.store == old(disk.store) && (ok <==> target != "")
      ensures io.AllOk() && source != target ==>
        (ok <==> target != "" && source in old(Base()) && target !in old(Base())
                 && ValidProfile(old(Base())[source].(name := target)))
    {
      if target == "" {
        return false;
      }
      if source == target {
        return true;
      }
      if !io.lock {
        return false;
      }
      ghost var base := Base();
      ok := RenameLocked(source, target, now, fresh_, io);
      if ok {
        UpdatedBecomes(base, Change.Rename(source, target, now));
      }
    }

    method RenameLocked(source: string, target: string, now: nat, fresh_: Key, io: Io) returns (ok: bool)
      requires Valid() && target != "" && source != target
      modifies this, keyring, disk
      ensures Valid() && (old(disk.key).Some? ==> disk.key == old(disk.key))
      ensures Outcome(old(disk.store), old(Base()), Change.Rename(source, target, now), disk.store, profiles, ok)
      ensures io.AllOk() ==>
        (ok <==> source in old(Base()) && target !in old(Base()) && ValidProfile(old(Base())[source].(name := target)))
    {
      ok := ReloadLocked(fresh_, io);
      if !ok || source !in profiles || target in profiles {
        return false;
      }
      ghost var base := profiles;
      var p := profiles[source].(name := target);
      var err := Validate(p);
      if err.Some? {
        return false;
      }
      p := p.(updatedAt := now);
      profiles := profiles - {source};
      profiles := profiles[target := p];
      RenamedTable(base, profiles, source, target, now);
      dirty := true;
      ok := Save(fresh_, io);
    }

    /** Best effort: the caller is not told whether the update was saved. */
    method Touch(name: string, now: nat, fresh_: Key, io: Io) returns (ghost saved: bool)
      requires Valid()
      modifies this, keyring, disk
      ensures Valid() && (old(disk.key).Some? ==> disk.key == old(disk.key))
      ensures Outcome(old(disk.store), old(Base()), Change.Touch(name, now), disk.store, profiles, saved)
      ensures saved ==> Touched(old(Base()), disk.store.value.table, name, now)
      ensures io.AllOk() ==> (saved <==> name in old(Base()))
    {
      saved := false;
      if io.lock {
        var ok := ReloadLocked(fresh_, io);
        if ok && name in profiles {
          var p := profiles[name];
          profiles := profiles[name := p.(lastUsed := now, connectionCount := p.connectionCount + 1)];
          dirty := true;
          ok := Save(fresh_, io);
          saved := ok;
        }
      }
    }
  }

  lemma RenamedTable(t: Table, v: Table, source: string, target: string, now: nat)
    requires Loadable(t) && source in t && target !in t && ValidProfile(t[source].(name := target))
    requires v == (t - {source})[target := t[source].(name := target, updatedAt := now)]
    ensures Updated(t, Change.Rename(source, target, now)) == Some(v) && Loadable(v)
  {}

  /** What one process has saved, the next one to open the store finds, and it can
      always open it. */
  method AddThenReopen(s: Store, p: Profile, now: nat, fresh_: Key, io: Io, io': Io) returns (t: Store, ok: bool)
    requires s.Valid()
    modifies s, s.keyring, s.disk
    ensures ok && s.disk.store.Some? ==> t.profiles == s.disk.store.value.table
    ensures io.AllOk() && io'.AllOk() ==>
      ok && (ValidProfile(p) && p.name !in old(s.Base()) ==> Added(old(s.Base()), t.profiles, p, now))
  {
    var added := s.Add(p, now, fresh_, io);
    var keyring := new KeyStore(s.disk);
    t := new Store(s.disk, keyring);
    ok := t.Open(io');
  }
}
