/**
 The daemon object. Each method is one critical section of its mutex, or one timer
 operation, and takes the step of the lifecycle model that it stands for. The
 ghost `world` holds what the fields do not say: where each goroutine is.
 */
module DaemonObject {
  import opened Optional
  import opened DaemonCore
  import opened DaemonLifecycle

  class Daemon {
    const managed: bool
    var activeConns: map<nat, string>
    var sftpRunning: bool
    var sftpListener: Option<nat>
    var timerArmed: bool
    var stopOnce: bool
    var keepaliveCloses: nat
    var ctlOpen: bool
    ghost var world: State

    /** The fields are those of the world, and agree with each other and with the
        control points of the handlers. */
    ghost predicate Valid()
      reads this
    {
      && world.managed == managed
      && world.core == Core(activeConns, sftpRunning, sftpListener, timerArmed, stopOnce, keepaliveCloses, ctlOpen)
      && Consistent(world)
    }

    constructor (managed: bool)
      ensures Valid() && world == Init(managed)
    {
      this.managed := managed;
      activeConns, sftpRunning, sftpListener := map[], false, None;
      timerArmed, stopOnce, keepaliveCloses, ctlOpen := managed, false, 0, true;
      world := Init(managed);
    }

    /** The goroutine that is in `step` has taken it. */
    ghost method Take(step: Step)
      requires Consistent(world) && Enabled(world, step)
      modifies this`world
      ensures world == Apply(old(world), step) && Consistent(world)
    {
      ConsistentStep(world, step);
      world := Apply(world, step);
    }

    /** A step of some goroutine between two of these methods: it holds no lock and
        leaves the fields alone. */
    ghost method Elsewhere(step: Step)
      requires Valid() && Enabled(world, step) && Apply(world, step).core == world.core
      modifies this`world
      ensures Valid() && world == Apply(old(world), step)
    {
      Take(step);
      ManagedStays(old(world), step);
    }

    method Register(id: nat)
      requires Valid() && Enabled(world, Enter(id))
      modifies this
      ensures Valid() && world == Apply(old(world), Enter(id))
    {
      activeConns := activeConns[id := ""];
      Take(Enter(id));
    }

    method StopTimer(id: nat)
      requires Valid() && Enabled(world, HushTimer(id))
      modifies this
      ensures Valid() && world == Apply(old(world), HushTimer(id))
      ensures managed ==> !timerArmed
    {
      if managed {
        timerArmed := false;
      }
      Take(HushTimer(id));
    }

    method SetCommand(id: nat, cmd: string)
      requires Valid() && Enabled(world, BeginExec(id, cmd))
      modifies this
      ensures Valid() && world == Apply(old(world), BeginExec(id, cmd))
      ensures id in activeConns && activeConns[id] == cmd
    {
      if id in activeConns {
        activeConns := activeConns[id := cmd];
      }
      Take(BeginExec(id, cmd));
    }

    method ClearCommand(id: nat)
      requires Valid() && Enabled(world, EndExec(id))
      modifies this
      ensures Valid() && world == Apply(old(world), EndExec(id))
    {
      if id in activeConns {
        activeConns := activeConns[id := ""];
      }
      Take(EndExec(id));
    }

    /** The handler learns that it was the last one exactly when no other is
        between registering and leaving. */
    method Unregister(id: nat) returns (remaining: nat)
      requires Valid() && Enabled(world, Leave(id))
      modifies this
      ensures Valid() && world == Apply(old(world), Leave(id)) && world.handlers[id] == Leaving(remaining)
      ensures remaining == 0 <==> forall h | h in world.handlers :: !world.handlers[h].InTable()
    {
      activeConns := activeConns - {id};
      remaining := |activeConns|;
      Take(Leave(id));
      assert activeConns != map[] ==> exists h :: h in activeConns;
    }

    method RearmTimer(id: nat, remaining: nat)
      requires Valid() && Enabled(world, Rearm(id)) && world.handlers[id].remaining == remaining
      modifies this
      ensures Valid() && world == Apply(old(world), Rearm(id))
      ensures timerArmed <==> old(timerArmed) || (managed && remaining == 0)
    {
      if managed && remaining == 0 {
        timerArmed := true;
      }
      Take(Rearm(id));
    }

    /** A second mount is refused exactly while some listener is on record. */
    method BeginMount(id: nat) returns (running: bool)
      requires Valid() && Enabled(world, CheckMount(id))
      modifies this
      ensures Valid() && world == Apply(old(world), CheckMount(id))
      ensures running <==> sftpListener.Some?
      ensures world.handlers[id] == if running then Serving else Mounting
    {
      running := sftpRunning;
      Take(CheckMount(id));
    }

    /** Whatever was on record before is overwritten. */
    method FinishMount(id: nat, listener: nat)
      requires Valid() && Enabled(world, CommitMount(id)) && listener == world.nextListener
      modifies this
      ensures Valid() && world == Apply(old(world), CommitMount(id))
      ensures sftpListener == Some(listener) && listener in world.servers
    {
      sftpRunning := true;
      sftpListener := Some(listener);
      Take(CommitMount(id));
    }

    /** Runs when a server has returned, and forgets whichever listener is on
        record, its own or not. */
    method ServerEnded(listener: nat)
      requires Valid() && Enabled(world, CleanUp(listener))
      modifies this
      ensures Valid() && world == Apply(old(world), CleanUp(listener)) && sftpListener == None
    {
      sftpRunning := false;
      sftpListener := None;
      Take(CleanUp(listener));
    }

    /** There is a listener to close exactly when SFTP counts as running. */
    method BeginUnmount(id: nat) returns (listener: Option<nat>)
      requires Valid() && Enabled(world, CheckUnmount(id))
      modifies this
      ensures Valid() && world == Apply(old(world), CheckUnmount(id))
      ensures listener == sftpListener && (listener.Some? <==> sftpRunning)
      ensures world.handlers[id] == if listener.Some? then Unmounting(listener.value) else Serving
    {
      listener := if sftpRunning then sftpListener else None;
      Take(CheckUnmount(id));
    }

    /** Sees exactly the handlers that are in exec. It goes ahead exactly when
        forced, or when nobody is and no persistent mount is up; and when forced,
        the listener on record is closed and forgotten. */
    method Stop(id: nat, force: bool) returns (active: set<nat>, stopping: bool, close: Option<nat>)
      requires Valid() && Enabled(world, DaemonLifecycle.Stop(id, force))
      modifies this
      ensures Valid() && world == Apply(old(world), DaemonLifecycle.Stop(id, force))
      ensures active == set h | h in old(world.handlers) && old(world.handlers)[h].InExec?
      ensures stopping <==> force || (active == {} && (managed || old(sftpListener).None?))
      ensures stopping <==> world.handlers[id] == Closing
      ensures close == if force then old(sftpListener) else None
      ensures force ==> sftpListener == None && (close.Some? ==> close.value in world.closed)
    {
      active := ActiveConns();
      close := None;
      var sftpActive := sftpRunning;
      if force && sftpListener.Some? {
        close := sftpListener;
        sftpListener := None;
        sftpRunning := false;
      }
      Take(DaemonLifecycle.Stop(id, force));
      stopping := force || (active == {} && (managed || !sftpActive));
    }

    method ActiveConns() returns (active: set<nat>)
      requires Valid()
      ensures active == set h | h in world.handlers && world.handlers[h].InExec?
      ensures active == {} <==> !Busy(world.core)
    {
      active := {};
      var todo := activeConns.Keys;
      while todo != {}
        invariant todo <= activeConns.Keys
        invariant active == set id | id in activeConns.Keys - todo && activeConns[id] != ""
        modifies {}
      {
        var id :| id in todo;
        todo := todo - {id};
        if activeConns[id] != "" {
          active := active + {id};
        }
      }
      assert forall id | id in activeConns && activeConns[id] != "" :: id in active;
      assert active != {} ==> exists id :: id in active && activeConns[id] != "";
    }

    /** The timer callback shuts down exactly when no handler is registered and no
        listener is on record. */
    method LookIdle() returns (idle: bool)
      requires Valid() && Enabled(world, DaemonLifecycle.LookIdle)
      modifies this
      ensures Valid() && world == Apply(old(world), DaemonLifecycle.LookIdle)
      ensures idle <==> sftpListener == None && forall h | h in world.handlers :: !world.handlers[h].InTable()
      ensures world.requested <==> old(world).requested || idle
      ensures world.shut1 == old(world).shut1 + if idle then 1 else 0
    {
      var n := |activeConns|;
      idle := n == 0 && !sftpRunning;
      Take(DaemonLifecycle.LookIdle);
      assert activeConns != map[] ==> exists h :: h in activeConns;
    }

    /** However many shutdowns there are, the channel is closed once. */
    method StopKeepalive()
      requires Valid() && Enabled(world, ShutdownStop)
      modifies this
      ensures Valid() && world == Apply(old(world), ShutdownStop) && keepaliveCloses == 1
    {
      if !stopOnce {
        stopOnce := true;
        keepaliveCloses := keepaliveCloses + 1;
      }
      Take(ShutdownStop);
    }

    method CloseControl()
      requires Valid() && Enabled(world, ShutdownControl)
      modifies this
      ensures Valid() && world == Apply(old(world), ShutdownControl)
      ensures !Enabled(world, Accept)
    {
      ctlOpen := false;
      Take(ShutdownControl);
    }

    /** The last part of a shutdown: there is a listener to close exactly when SFTP
        counted as running, and afterwards nothing is on record. */
    method DropListener() returns (close: Option<nat>)
      requires Valid() && Enabled(world, ShutdownListener)
      modifies this
      ensures Valid() && world == Apply(old(world), ShutdownListener)
      ensures (close.Some? <==> old(sftpRunning)) && !sftpRunning && sftpListener == None
      ensures world.closed == old(world).closed + if close.Some? then {close.value} else {}
    {
      close := sftpListener;
      if sftpListener.Some? {
        sftpListener := None;
        sftpRunning := false;
      }
      Take(ShutdownListener);
    }
  }
}
