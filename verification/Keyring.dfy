/**
 The master key of the credential store, kept in a key file (file backend, no
 secret-tool). Files are replaced by rename, so a failed write leaves the old
 content; `Io` says which of the fallible actions of a call succeed.
 */
module Keyring {
  import opened Optional
  import opened Profiles

  /** An AES-256 key. */
  type Key = nat

  /** AES-GCM, idealised: a store file opens under the key that sealed it only. */
  datatype Sealed = Sealed(key: Key, table: Table)

  datatype Io = Io(lock: bool, readStore: bool, readKey: bool, writeKey: bool, writeStore: bool)
  {
    predicate AllOk() { lock && readStore && readKey && writeKey && writeStore }
  }

  class Disk {
    var store: Option<Sealed>
    var key: Option<Key>

    constructor ()
      ensures store == None && key == None
    {
      store, key := None, None;
    }
  }

  class KeyStore {
    const disk: Disk
    var cached: Option<Key>
    var storeExists: bool

    constructor (disk: Disk)
      ensures this.disk == disk && cached == None && !storeExists
    {
      this.disk := disk;
      cached, storeExists := None, false;
    }

    method SetStoreExists(exists_: bool)
      modifies this`storeExists
      ensures storeExists == exists_
    {
      storeExists := exists_;
    }

    /** The cached key, else the one in the key file, else a fresh one: but never
        a fresh one once a store is known to exist, and never over an old one. */
    method Get(fresh_: Key, io: Io) returns (key: Option<Key>)
      modifies this`cached, disk`key
      ensures key.Some? ==> cached == key
      ensures key.None? ==> cached == old(cached) && disk.key == old(disk.key)
      ensures old(cached).Some? ==> key == old(cached) && disk.key == old(disk.key)
      ensures old(disk.key).Some? || storeExists ==> disk.key == old(disk.key)
      ensures old(cached).None? && key.Some? ==> disk.key == key
      ensures old(cached).None? && old(disk.key).None? && key.Some? ==> key.value == fresh_
      ensures io.AllOk() && (old(cached).Some? || old(disk.key).Some? || !storeExists) ==> key.Some?
    {
      if cached.Some? {
        return cached;
      }
      key := GetWithFile(fresh_, io);
      if key.Some? {
        cached := key;
      }
    }

    method GetWithFile(fresh_: Key, io: Io) returns (key: Option<Key>)
      modifies disk`key
      ensures key.None? || storeExists || old(disk.key).Some? ==> disk.key == old(disk.key)
      ensures key.Some? ==> disk.key == key
      ensures key.Some? && old(disk.key).None? ==> key.value == fresh_
      ensures io.AllOk() && (old(disk.key).Some? || !storeExists) ==> key.Some?
    {
      if disk.key.Some? {
        return if io.readKey then disk.key else None;
      }
      if storeExists {
        return None;  // refusing to generate a replacement key
      }
      key := MintNewKey(fresh_, io);
    }

    method MintNewKey(fresh_: Key, io: Io) returns (key: Option<Key>)
      requires disk.key.None?
      modifies disk`key
      ensures key == if io.writeKey then Some(fresh_) else None
      ensures disk.key == key
    {
      if !io.writeKey {
        return None;
      }
      disk.key := Some(fresh_);
      return Some(fresh_);
    }
  }
}
