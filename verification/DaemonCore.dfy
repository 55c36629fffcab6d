/** The fields of the daemon and what its critical sections do to them. */
module DaemonCore {
  import opened Optional

  /** The fields that the daemon's goroutines share. `conns` maps a connection to
      its running command, empty when it runs none; listeners are numbered. */
  datatype Core = Core(
    conns: map<nat, string>, sftpRunning: bool, listener: Option<nat>,
    timerArmed: bool, stopped: bool, keepaliveCloses: nat, ctlOpen: bool)

  function Fresh(managed: bool): Core {
    Core(map[], false, None, managed, false, 0, true)
  }

  function Registered(c: Core, id: nat): Core {
    c.(conns := c.conns[id := ""])
  }

  function Unregistered(c: Core, id: nat): Core {
    c.(conns := c.conns - {id})
  }

  function WithCommand(c: Core, id: nat, cmd: string): Core {
    if id in c.conns then c.(conns := c.conns[id := cmd]) else c
  }

  function Mounted(c: Core, listener: nat): Core {
    c.(sftpRunning := true, listener := Some(listener))
  }

  function Unmounted(c: Core): Core {
    c.(sftpRunning := false, listener := None)
  }

  function ListenerDropped(c: Core): Core {
    if c.listener.Some? then Unmounted(c) else c
  }

  function KeepaliveStopped(c: Core): Core {
    if c.stopped then c else c.(stopped := true, keepaliveCloses := c.keepaliveCloses + 1)
  }

  predicate Busy(c: Core) {
    exists id | id in c.conns :: c.conns[id] != ""
  }
}
