/**
 The daemon's goroutines over the shared fields: connection handlers, timer
 callbacks, SFTP server goroutines and shutdowns, interleaved at critical
 sections and timer operations.
 */
module DaemonLifecycle {
  import opened Optional
  import opened DaemonCore

  datatype Handler =
    | Accepted                     // not in activeConns yet
    | Entered                      // registered, idle timer not stopped yet
    | Serving
    | InExec
    | Mounting                     // no mount seen, listener not committed yet
    | Unmounting(listener: nat)    // about to close the listener it has seen
    | Closing                      // has ended a mount or agreed to stop; shutdown is next
    | Leaving(remaining: nat)      // out of activeConns, timer not re-armed yet
  {
    predicate InTable() { !Accepted? && !Leaving? }
  }

  /** Shutdowns, timer callbacks and servers are anonymous goroutines: those at
      the same control point are counted or keyed by listener. */
  datatype State = State(
    managed: bool, core: Core, handlers: map<nat, Handler>, nextConn: nat,
    servers: map<nat, bool>,       // live SFTP servers; true once Serve has returned
    nextListener: nat, closed: set<nat>,
    firing: nat,                   // timer callbacks that have not looked yet
    shut1: nat, shut2: nat, shut3: nat,
    requested: bool,               // some shutdown has been started
    exited: bool)                  // the process is gone, and its goroutines with it

  datatype Step =
    | Accept
    | Enter(id: nat)
    | HushTimer(id: nat)
    | BeginExec(id: nat, cmd: string)
    | EndExec(id: nat)
    | Revoke(id: nat)
    | CheckMount(id: nat)
    | AbortMount(id: nat)
    | CommitMount(id: nat)
    | CheckUnmount(id: nat)
    | CloseMount(id: nat)
    | Stop(id: nat, force: bool)
    | StartShutdown(id: nat)
    | Leave(id: nat)
    | Rearm(id: nat)
    | ServeReturns(listener: nat)
    | CleanUp(listener: nat)
    | Fire
    | LookIdle
    | KeepaliveRevokes
    | ShutdownStop
    | ShutdownControl
    | ShutdownListener
    | Exit                         // the accept loop has returned, and then main

  function Init(managed: bool): State {
    State(managed, Fresh(managed), map[], 0, map[], 0, {}, 0, 0, 0, 0, false, false)
  }

  predicate Is(s: State, id: nat, h: Handler) {
    id in s.handlers && s.handlers[id] == h
  }

  predicate Enabled(s: State, step: Step) {
    !s.exited && Ready(s, step)
  }

  predicate Ready(s: State, step: Step) {
    match step
    case Accept => s.core.ctlOpen
    case Enter(id) => Is(s, id, Accepted)
    case HushTimer(id) => Is(s, id, Entered)
    case BeginExec(id, cmd) => Is(s, id, Serving) && cmd != ""
    case EndExec(id) => Is(s, id, InExec)
    case Revoke(id) => Is(s, id, Serving)
    case CheckMount(id) => Is(s, id, Serving)
    case AbortMount(id) => Is(s, id, Mounting)
    case CommitMount(id) => Is(s, id, Mounting)
    case CheckUnmount(id) => Is(s, id, Serving)
    case CloseMount(id) => id in s.handlers && s.handlers[id].Unmounting?
    case Stop(id, _) => Is(s, id, Serving)
    case StartShutdown(id) => Is(s, id, Closing)
    case Leave(id) => Is(s, id, Serving)
    case Rearm(id) => id in s.handlers && s.handlers[id].Leaving?
    case ServeReturns(l) => l in s.servers && !s.servers[l]
    case CleanUp(l) => l in s.servers && s.servers[l]
    case Fire => s.core.timerArmed
    case LookIdle => s.firing > 0
    case KeepaliveRevokes => true
    case ShutdownStop => s.shut1 > 0
    case ShutdownControl => s.shut2 > 0
    case ShutdownListener => s.shut3 > 0
    case Exit => !s.core.ctlOpen
  }

  function Go(s: State, id: nat, h: Handler): State {
    s.(handlers := s.handlers[id := h])
  }

  function Requested(s: State): State {
    s.(requested := true, shut1 := s.shut1 + 1)
  }

  function Close(s: State, l: Option<nat>): State {
    if l.Some? then s.(closed := s.closed + {l.value}) else s
  }

  function Below(n: nat): (r: set<nat>)
    ensures forall l: nat :: l in r <==> l < n
  {
    if n == 0 then {} else Below(n - 1) + {n - 1}
  }

  function Apply(s: State, step: Step): State
    requires Enabled(s, step)
  {
    match step
    case Accept => Go(s, s.nextConn, Accepted).(nextConn := s.nextConn + 1)
    case Enter(id) => Go(s, id, Entered).(core := Registered(s.core, id))
    case HushTimer(id) =>
      Go(s, id, Serving).(core := if s.managed then s.core.(timerArmed := false) else s.core)
    case BeginExec(id, cmd) => Go(s, id, InExec).(core := WithCommand(s.core, id, cmd))
    case EndExec(id) => Go(s, id, Serving).(core := WithCommand(s.core, id, ""))
    case Revoke(_) => Requested(s)
    case CheckMount(id) => if s.core.sftpRunning then s else Go(s, id, Mounting)
    case AbortMount(id) => Go(s, id, Serving)
    case CommitMount(id) =>
      Go(s, id, Serving).(core := Mounted(s.core, s.nextListener),
                          servers := s.servers[s.nextListener := false], nextListener := s.nextListener + 1)
    case CheckUnmount(id) =>
      if s.core.sftpRunning && s.core.listener.Some? then Go(s, id, Unmounting(s.core.listener.value)) else s
    case CloseMount(id) =>
      Close(Go(s, id, if s.managed then Closing else Serving), Some(s.handlers[id].listener))
    case Stop(id, force) =>
      if force then Close(Go(s, id, Closing).(core := ListenerDropped(s.core)), s.core.listener)
      else if Busy(s.core) || (s.core.sftpRunning && !s.managed) then s
      else Go(s, id, Closing)
    case StartShutdown(id) => Requested(Go(s, id, Serving))
    case Leave(id) =>
      var core := Unregistered(s.core, id);
      Go(s, id, Leaving(|core.conns|)).(core := core)
    case Rearm(id) =>
      var t := s.(handlers := s.handlers - {id});
      if s.managed && s.handlers[id].remaining == 0 then t.(core := s.core.(timerArmed := true)) else t
    case ServeReturns(l) => s.(servers := s.servers[l := true])
    case CleanUp(l) => s.(servers := s.servers - {l}, core := Unmounted(s.core))
    case Fire => s.(core := s.core.(timerArmed := false), firing := s.firing + 1)
    case LookIdle =>
      var t := s.(firing := s.firing - 1);
      if s.core.conns == map[] && !s.core.sftpRunning then Requested(t) else t
    case KeepaliveRevokes => Requested(s)
    case ShutdownStop => s.(shut1 := s.shut1 - 1, shut2 := s.shut2 + 1, core := KeepaliveStopped(s.core))
    case ShutdownControl => s.(shut2 := s.shut2 - 1, shut3 := s.shut3 + 1, core := s.core.(ctlOpen := false))
    case ShutdownListener =>
      Close(s.(shut3 := s.shut3 - 1, core := ListenerDropped(s.core)), s.core.listener)
    case Exit => s.(exited := true, servers := map[], closed := s.closed + Below(s.nextListener))
  }

  predicate Legal(s: State, run: seq<Step>)
    decreases |run|
  {
    run == [] || (Enabled(s, run[0]) && Legal(Apply(s, run[0]), run[1..]))
  }

  function After(s: State, run: seq<Step>): State
    requires Legal(s, run)
    decreases |run|
  {
    if run == [] then s else After(Apply(s, run[0]), run[1..])
  }

  /** SFTP service ends only after its listener was closed by unmount, stop or
      shutdown. */
  predicate Tame(s: State, step: Step) {
    step.ServeReturns? ==> step.listener in s.closed
  }

  predicate TameRun(s: State, run: seq<Step>)
    requires Legal(s, run)
    decreases |run|
  {
    run == [] || (Tame(s, run[0]) && TameRun(Apply(s, run[0]), run[1..]))
  }

  // ---- structure of the shared fields ----

  /** The table of connections agrees with the control points of the handlers. */
  ghost predicate TableAgrees(conns: map<nat, string>, handlers: map<nat, Handler>, next: nat) {
    && (forall id | id in handlers :: id < next)
    && (forall id :: id in conns <==> id in handlers && handlers[id].InTable())
    && (forall id | id in conns :: conns[id] != "" <==> handlers[id].InExec?)
  }

  ghost predicate Consistent(s: State) {
    CoreAgrees(s.core) && TableAgrees(s.core.conns, s.handlers, s.nextConn)
  }

  /** Moves of a registered handler that neither begin nor end a command. */
  lemma TableKept(conns: map<nat, string>, handlers: map<nat, Handler>, next: nat, id: nat, h: Handler)
    requires TableAgrees(conns, handlers, next)
    requires id in handlers && handlers[id].InTable() && h.InTable()
    requires handlers[id].InExec? == h.InExec?
    ensures TableAgrees(conns, handlers[id := h], next)
  {}

  lemma TableExec(conns: map<nat, string>, handlers: map<nat, Handler>, next: nat, id: nat, h: Handler, cmd: string)
    requires TableAgrees(conns, handlers, next)
    requires id in handlers && handlers[id].InTable() && h.InTable() && (h.InExec? <==> cmd != "")
    ensures TableAgrees(conns[id := cmd], handlers[id := h], next)
  {}

  lemma TableEnters(conns: map<nat, string>, handlers: map<nat, Handler>, next: nat, id: nat)
    requires TableAgrees(conns, handlers, next)
    ensures id == next ==> TableAgrees(conns, handlers[id := Accepted], next + 1)
    ensures id in handlers && handlers[id].Accepted? ==>
      TableAgrees(conns[id := ""], handlers[id := Entered], next)
  {}

  lemma TableLeaves(conns: map<nat, string>, handlers: map<nat, Handler>, next: nat, id: nat, n: nat)
    requires TableAgrees(conns, handlers, next) && id in handlers
    ensures TableAgrees(conns - {id}, handlers[id := Leaving(n)], next)
    ensures handlers[id].Leaving? ==> TableAgrees(conns, handlers - {id}, next)
  {}

  /** A registered handler goes to another point of its request loop. */
  predicate MovesWithin(step: Step, id: nat) {
    match step
    case HushTimer(i) => i == id
    case Revoke(i) => i == id
    case CheckMount(i) => i == id
    case AbortMount(i) => i == id
    case CommitMount(i) => i == id
    case CheckUnmount(i) => i == id
    case CloseMount(i) => i == id
    case Stop(i, _) => i == id
    case StartShutdown(i) => i == id
    case _ => false
  }

  lemma HandlerMoves(s: State, step: Step, id: nat)
    requires Enabled(s, step)
    requires MovesWithin(step, id)
    ensures var t := Apply(s, step);
      && id in s.handlers && s.handlers[id].InTable() && !s.handlers[id].InExec?
      && t.core.conns == s.core.conns && t.nextConn == s.nextConn
      && id in t.handlers && t.handlers[id].InTable() && !t.handlers[id].InExec?
      && t.handlers == s.handlers[id := t.handlers[id]]
  {}

  lemma TableStep(s: State, step: Step)
    requires TableAgrees(s.core.conns, s.handlers, s.nextConn) && Enabled(s, step)
    ensures var t := Apply(s, step); TableAgrees(t.core.conns, t.handlers, t.nextConn)
  {
    match step {
      case Accept => TableEnters(s.core.conns, s.handlers, s.nextConn, s.nextConn);
      case Enter(id) => TableEnters(s.core.conns, s.handlers, s.nextConn, id);
      case Leave(id) =>
        TableLeaves(s.core.conns, s.handlers, s.nextConn, id, |Unregistered(s.core, id).conns|);
      case Rearm(id) => TableLeaves(s.core.conns, s.handlers, s.nextConn, id, 0);
      case BeginExec(id, cmd) => TableExec(s.core.conns, s.handlers, s.nextConn, id, InExec, cmd);
      case EndExec(id) => TableExec(s.core.conns, s.handlers, s.nextConn, id, Serving, "");
      case _ => TableOther(s, step);
    }
  }

  lemma TableOther(s: State, step: Step)
    requires TableAgrees(s.core.conns, s.handlers, s.nextConn) && Enabled(s, step)
    requires !step.Accept? && !step.Enter? && !step.Leave? && !step.Rearm? && !step.BeginExec? && !step.EndExec?
    ensures var t := Apply(s, step); TableAgrees(t.core.conns, t.handlers, t.nextConn)
  {
    if step.HushTimer? || step.Revoke? || step.CheckMount? || step.AbortMount? || step.CommitMount?
       || step.CheckUnmount? || step.CloseMount? || step.Stop? || step.StartShutdown? {
      TableMove(s, step, step.id);
    } else {
      assert Apply(s, step).handlers == s.handlers && Apply(s, step).core.conns == s.core.conns;
    }
  }

  lemma TableMove(s: State, step: Step, id: nat)
    requires TableAgrees(s.core.conns, s.handlers, s.nextConn) && Enabled(s, step)
    requires MovesWithin(step, id)
    ensures var t := Apply(s, step); TableAgrees(t.core.conns, t.handlers, t.nextConn)
  {
    HandlerMoves(s, step, id);
    TableKept(s.core.conns, s.handlers, s.nextConn, id, Apply(s, step).handlers[id]);
  }

  ghost predicate CoreAgrees(c: Core) {
    && (c.sftpRunning <==> c.listener.Some?)
    && c.keepaliveCloses == (if c.stopped then 1 else 0)
  }

  /** Steps that change nothing the idle decision depends on. */
  predicate Idles(step: Step) {
    || step.Accept? || step.Revoke? || step.CheckMount? || step.AbortMount? || step.CheckUnmount?
    || step.CloseMount? || step.StartShutdown? || step.ServeReturns? || step.KeepaliveRevokes?
    || step.ShutdownStop? || step.ShutdownControl?
  }

  lemma IdleFieldsKept(s: State, step: Step)
    requires Enabled(s, step) && Idles(step)
    ensures var t := Apply(s, step);
      && t.core.timerArmed == s.core.timerArmed && t.core.sftpRunning == s.core.sftpRunning
      && t.core.conns == s.core.conns && t.firing == s.firing
      && t.core.listener == s.core.listener
      && (!step.ShutdownStop? ==>
            t.core.stopped == s.core.stopped && t.core.keepaliveCloses == s.core.keepaliveCloses)
  {
    if !step.ShutdownStop? && !step.ShutdownControl? {
      assert Apply(s, step).core == s.core && Apply(s, step).firing == s.firing;
    }
  }

  lemma CoreUntouched(s: State, step: Step)
    requires Enabled(s, step)
    requires !step.CommitMount? && !step.Stop? && !step.CleanUp? && !step.ShutdownStop? && !step.ShutdownListener?
    ensures var c, d := s.core, Apply(s, step).core;
      && d.sftpRunning == c.sftpRunning && d.listener == c.listener
      && d.stopped == c.stopped && d.keepaliveCloses == c.keepaliveCloses
  {
    if Idles(step) { IdleFieldsKept(s, step); }
  }

  lemma ManagedStays(s: State, step: Step)
    requires Enabled(s, step)
    ensures Apply(s, step).managed == s.managed
  {}

  lemma CoreStep(s: State, step: Step)
    requires CoreAgrees(s.core) && Enabled(s, step)
    ensures CoreAgrees(Apply(s, step).core)
  {
    if !step.CommitMount? && !step.Stop? && !step.CleanUp? && !step.ShutdownStop? && !step.ShutdownListener? {
      CoreUntouched(s, step);
    }
  }

  lemma ConsistentStep(s: State, step: Step)
    requires Consistent(s) && Enabled(s, step)
    ensures Consistent(Apply(s, step))
  {
    CoreStep(s, step);
    TableStep(s, step);
  }

  lemma {:induction false} ConsistentRun(s: State, run: seq<Step>)
    requires Consistent(s) && Legal(s, run)
    ensures Consistent(After(s, run))
    decreases |run|
  {
    if run != [] {
      ConsistentStep(s, run[0]);
      ConsistentRun(Apply(s, run[0]), run[1..]);
    }
  }

  /** Between any two critical sections: SFTP is running exactly when there is a
      listener, the table holds exactly the registered handlers, a handler has a
      command there exactly while it is in exec, and the keepalive channel has
      been closed at most once. */
  lemma FieldsConsistent(managed: bool, run: seq<Step>)
    requires Legal(Init(managed), run)
    ensures var s := After(Init(managed), run);
      && (s.core.sftpRunning <==> s.core.listener.Some?)
      && (forall id :: id in s.core.conns <==> id in s.handlers && s.handlers[id].InTable())
      && (forall id | id in s.core.conns :: s.core.conns[id] != "" <==> s.handlers[id].InExec?)
      && s.core.keepaliveCloses <= 1
  {
    ConsistentRun(Init(managed), run);
  }

  // ---- idle exit ----

  predicate SomeRearm(s: State) {
    exists id | id in s.handlers :: s.handlers[id] == Leaving(0)
  }

  predicate SomeClosing(s: State) {
    exists id | id in s.handlers :: s.handlers[id].Closing?
  }

  /** Somebody will still look whether the daemon is idle, or it is not idle. */
  predicate Attended(s: State) {
    || s.core.timerArmed || s.firing > 0 || s.core.sftpRunning
    || s.core.conns != map[] || SomeRearm(s)
  }

  ghost predicate Watched(s: State) {
    && (s.managed && !s.requested ==> Attended(s))
    && (s.managed && !s.requested && s.closed != {} ==> SomeClosing(s))
    && (forall l | l in s.servers && s.servers[l] :: l in s.closed)
    && Asked(s)
  }

  /** Whatever belongs to a shutdown has been asked for. */
  predicate Asked(s: State) {
    s.shut1 + s.shut2 + s.shut3 > 0 || !s.core.ctlOpen ==> s.requested
  }

  lemma RearmKept(s: State, step: Step)
    requires Enabled(s, step) && SomeRearm(s) && s.managed && Consistent(s)
    ensures Attended(Apply(s, step))
  {
    var id :| id in s.handlers && s.handlers[id] == Leaving(0);
    var t := Apply(s, step);
    if step != Rearm(id) {
      assert id in t.handlers && t.handlers[id] == Leaving(0);
    }
  }

  lemma ClosingKept(s: State, step: Step)
    requires Enabled(s, step) && SomeClosing(s) && Consistent(s)
    ensures SomeClosing(Apply(s, step)) || Apply(s, step).requested
  {
    var id :| id in s.handlers && s.handlers[id].Closing?;
    var t := Apply(s, step);
    if step != StartShutdown(id) {
      assert id in t.handlers && t.handlers[id].Closing?;
    }
  }

  /** A handler in the table keeps the table non-empty. */
  lemma InTableCounts(s: State, id: nat)
    requires Consistent(s) && id in s.handlers && s.handlers[id].InTable()
    ensures s.core.conns != map[]
  {
    assert id in s.core.conns;
  }

  lemma ServersStep(s: State, step: Step)
    requires Enabled(s, step) && Tame(s, step)
    requires forall l | l in s.servers && s.servers[l] :: l in s.closed
    ensures var t := Apply(s, step); forall l | l in t.servers && t.servers[l] :: l in t.closed
  {
    assert s.closed <= Apply(s, step).closed;
  }

  lemma ShutdownsStep(s: State, step: Step)
    requires Enabled(s, step) && Asked(s)
    ensures var t := Apply(s, step);
      && Asked(t)
      && (s.requested ==> t.requested) && t.managed == s.managed
  {}

  lemma ClosersStep(s: State, step: Step)
    requires Enabled(s, step) && s.managed && !step.ShutdownListener? && !step.Exit?
    ensures var t := Apply(s, step);
      t.closed != s.closed ==> SomeClosing(t)
  {
    var t := Apply(s, step);
    if step.CloseMount? || step.Stop? {
      assert t.closed != s.closed ==> t.handlers[step.id].Closing?;
    }
  }

  lemma ClosedStep(s: State, step: Step)
    requires Consistent(s) && Watched(s) && Enabled(s, step) && s.managed && !Apply(s, step).requested
    ensures var t := Apply(s, step); t.closed != {} ==> SomeClosing(t)
  {
    ShutdownsStep(s, step);
    if SomeClosing(s) {
      ClosingKept(s, step);
    } else {
      ClosersStep(s, step);
    }
  }

  /** Steps of a handler that is in the table afterwards. */
  lemma HandlerStays(s: State, step: Step)
    requires Enabled(s, step) && Consistent(Apply(s, step))
    requires step.Enter? || step.HushTimer? || step.BeginExec? || step.EndExec? || step.Stop?
    ensures Attended(Apply(s, step))
  {
    InTableCounts(Apply(s, step), step.id);
  }

  /** Steps of the timer, and of handlers going away. */
  lemma TimerStep(s: State, step: Step)
    requires Attended(s) && !SomeRearm(s) && Enabled(s, step) && !Apply(s, step).requested
    requires step.Leave? || step.Rearm? || step.Fire? || step.LookIdle? || step.CommitMount?
    ensures Attended(Apply(s, step))
  {
    var t := Apply(s, step);
    if step.Leave? {
      assert t.handlers[step.id] == Leaving(|t.core.conns|);
    }
  }

  /** An SFTP server is cleaned up while no connection is open or about to re-arm
      the timer, and no callback is on its way: nobody is left to look. */
  predicate LosesIdle(s: State, step: Step) {
    && step.CleanUp? && s.managed && !s.requested
    && !s.core.timerArmed && s.firing == 0 && s.core.conns == map[] && !SomeRearm(s)
  }

  lemma CleanUpStep(s: State, step: Step)
    requires Enabled(s, step) && step.CleanUp? && s.managed && !s.requested
    ensures Attended(Apply(s, step)) <==> !LosesIdle(s, step)
  {
    var t := Apply(s, step);
    assert t.handlers == s.handlers;
  }

  /** The clean-up of an SFTP server is the one step that can leave nobody to look. */
  lemma AttendedIff(s: State, step: Step)
    requires Consistent(s) && Attended(s) && Enabled(s, step) && s.managed && !Apply(s, step).requested
    requires Asked(s)
    ensures Attended(Apply(s, step)) <==> !LosesIdle(s, step)
  {
    ConsistentStep(s, step);
    ShutdownsStep(s, step);
    if step.CleanUp? {
      CleanUpStep(s, step);
    } else if SomeRearm(s) {
      RearmKept(s, step);
    } else if step.Enter? || step.HushTimer? || step.BeginExec? || step.EndExec? || step.Stop? {
      HandlerStays(s, step);
    } else if Idles(step) {
      IdleFieldsKept(s, step);
    } else {
      TimerStep(s, step);
    }
  }

  /** A server that has returned because its listener was closed has a handler in
      the table until a shutdown is asked for. */
  lemma TameKeepsIdle(s: State, step: Step)
    requires Consistent(s) && Watched(s) && Enabled(s, step)
    ensures !LosesIdle(s, step)
  {
    if step.CleanUp? && s.managed && !s.requested {
      assert step.listener in s.closed;
      ClosingCounts(s);
    }
  }

  lemma ClosingCounts(s: State)
    requires Consistent(s) && SomeClosing(s)
    ensures s.core.conns != map[]
  {
    var id :| id in s.handlers && s.handlers[id].Closing?;
    InTableCounts(s, id);
  }

  lemma WatchedStep(s: State, step: Step)
    requires Consistent(s) && Watched(s) && Enabled(s, step) && Tame(s, step)
    ensures Watched(Apply(s, step))
  {
    ServersStep(s, step);
    ShutdownsStep(s, step);
    if s.managed && !Apply(s, step).requested {
      ClosedStep(s, step);
      TameKeepsIdle(s, step);
      AttendedIff(s, step);
    }
  }

  lemma {:induction false} WatchedRun(s: State, run: seq<Step>)
    requires Consistent(s) && Watched(s) && Legal(s, run) && TameRun(s, run)
    ensures Watched(After(s, run)) && After(s, run).managed == s.managed
    decreases |run|
  {
    if run != [] {
      ConsistentStep(s, run[0]);
      WatchedStep(s, run[0]);
      ShutdownsStep(s, run[0]);
      WatchedRun(Apply(s, run[0]), run[1..]);
    }
  }

  /** No handler, no re-arm on its way, no mount, no timer callback about to look,
      and nobody has asked the daemon to shut down. */
  predicate Quiescent(s: State) {
    !s.core.sftpRunning && s.core.conns == map[] && !SomeRearm(s) && s.firing == 0 && !s.requested
  }

  /** Idle exit is never lost: a managed daemon with nothing going on has its idle
      timer armed, as long as SFTP service ends only through unmount, stop or
      shutdown. */
  lemma IdleExitNeverLost(run: seq<Step>)
    requires Legal(Init(true), run) && TameRun(Init(true), run)
    ensures var s := After(Init(true), run); Quiescent(s) ==> s.core.timerArmed
  {
    WatchedRun(Init(true), run);
  }

  /** At every point of the run: unless a shutdown is under way, a daemon with
      nothing going on has its idle timer armed. */
  ghost predicate IdleExitKept(s: State, run: seq<Step>)
    requires Legal(s, run)
    decreases |run|
  {
    && (Quiescent(s) ==> s.core.timerArmed)
    && (run == [] || IdleExitKept(Apply(s, run[0]), run[1..]))
  }

  predicate NeverLosesIdle(s: State, run: seq<Step>)
    requires Legal(s, run)
    decreases |run|
  {
    run == [] || (!LosesIdle(s, run[0]) && NeverLosesIdle(Apply(s, run[0]), run[1..]))
  }

  lemma {:induction false} IdleExitKeptIff(s: State, run: seq<Step>)
    requires Consistent(s) && s.managed && Legal(s, run)
    requires !s.requested ==> Attended(s)
    requires Asked(s)
    ensures IdleExitKept(s, run) <==> NeverLosesIdle(s, run)
    decreases |run|
  {
    if run != [] {
      var t := Apply(s, run[0]);
      ConsistentStep(s, run[0]);
      ShutdownsStep(s, run[0]);
      if !t.requested { AttendedIff(s, run[0]); }
      if t.requested || Attended(t) {
        IdleExitKeptIff(t, run[1..]);
      }
    }
  }

  /** Without any assumption on how SFTP service ends: the idle exit is kept through
      a run exactly when no server is cleaned up while nobody is left to look. */
  lemma IdleExitLostExactly(run: seq<Step>)
    requires Legal(Init(true), run)
    ensures IdleExitKept(Init(true), run) <==> NeverLosesIdle(Init(true), run)
  {
    IdleExitKeptIff(Init(true), run);
  }
}
