/** Two things the daemon does not guarantee: when exactly they go wrong, and runs
    in which they do. */
module DaemonLimits {
  import opened Optional
  import opened DaemonCore
  import opened DaemonLifecycle

  lemma {:induction false} Extend(s: State, run: seq<Step>, step: Step)
    requires Legal(s, run) && Enabled(After(s, run), step)
    ensures Legal(s, run + [step])
    ensures After(s, run + [step]) == Apply(After(s, run), step)
    decreases |run|
  {
    if run == [] {
      assert run + [step] == [step] && [step][1..] == [];
    } else {
      Extend(Apply(s, run[0]), run[1..], step);
      assert (run + [step])[1..] == run[1..] + [step];
    }
  }

  lemma Mount() returns (run: seq<Step>)
    ensures Legal(Init(true), run)
    ensures var s := After(Init(true), run);
      && s.core == Core(map[0 := ""], true, Some(0), false, false, 0, true)
      && s.handlers == map[0 := Serving] && s.servers == map[0 := false] && s.firing == 0 && !s.requested
      && s.shut1 == s.shut2 == s.shut3 == 0 && s.managed && !s.exited
  {
    var s := Init(true);
    run := [];
    Extend(s, run, Accept);         run := run + [Accept];
    Extend(s, run, Enter(0));       run := run + [Enter(0)];
    Extend(s, run, HushTimer(0));   run := run + [HushTimer(0)];
    Extend(s, run, CheckMount(0));  run := run + [CheckMount(0)];
    Extend(s, run, CommitMount(0)); run := run + [CommitMount(0)];
  }

  /** One connection mounts SFTP and leaves; the timer fires and finds the mount. */
  lemma MountAndFire() returns (run: seq<Step>)
    ensures Legal(Init(true), run)
    ensures var s := After(Init(true), run);
      && s.core == Core(map[], true, Some(0), false, false, 0, true)
      && s.handlers == map[] && s.servers == map[0 := false] && s.firing == 0 && !s.requested
      && s.shut1 == s.shut2 == s.shut3 == 0 && !s.exited
  {
    var s := Init(true);
    run := Mount();
    Extend(s, run, Leave(0));       run := run + [Leave(0)];
    assert After(s, run).core.conns == map[];
    Extend(s, run, Rearm(0));       run := run + [Rearm(0)];
    Extend(s, run, Fire);           run := run + [Fire];
    Extend(s, run, LookIdle);       run := run + [LookIdle];
  }

  /** If the SFTP server ends on its own, nothing re-arms the idle timer: the last
      step is of the kind that loses the idle exit, and the daemon is then idle,
      unmounted and not going down, and stays so until somebody connects to it. */
  lemma IdleExitLostWhenServerEnds() returns (run: seq<Step>)
    ensures run != [] && Legal(Init(true), run) && !IdleExitKept(Init(true), run)
    ensures var s := After(Init(true), run);
      && Quiescent(s) && !s.core.timerArmed
      && forall step :: Enabled(s, step) ==> step.Accept? || step.KeepaliveRevokes?
  {
    run := MountAndFire();
    Extend(Init(true), run, ServeReturns(0)); run := run + [ServeReturns(0)];
    Extend(Init(true), run, CleanUp(0));      run := run + [CleanUp(0)];
    if IdleExitKept(Init(true), run) { KeptAtEnd(Init(true), run); }
  }

  lemma {:induction false} KeptAtEnd(s: State, run: seq<Step>)
    requires Legal(s, run) && IdleExitKept(s, run)
    ensures Quiescent(After(s, run)) ==> After(s, run).core.timerArmed
    decreases |run|
  {
    if run != [] { KeptAtEnd(Apply(s, run[0]), run[1..]); }
  }

  // ---- listeners ----

  /** A server whose listener nobody has closed. */
  predicate Open(s: State, l: nat) {
    l in s.servers && l !in s.closed
  }

  /** Every open listener is the one on record, so unmount and stop can reach it. */
  ghost predicate AllOnRecord(s: State) {
    forall l: nat :: Open(s, l) ==> s.core.listener == Some(l)
  }

  ghost predicate Numbered(s: State) {
    && (forall l | l in s.servers :: l < s.nextListener)
    && (forall l | l in s.closed :: l < s.nextListener)
    && (s.core.listener.Some? ==> s.core.listener.value < s.nextListener)
    && (forall id | id in s.handlers && s.handlers[id].Unmounting? :: s.handlers[id].listener < s.nextListener)
  }

  lemma NumberedStep(s: State, step: Step)
    requires Numbered(s) && Enabled(s, step)
    ensures Numbered(Apply(s, step))
  {
    ListenerNumbers(s, step);
    UnmountingKnown(s, step);
  }

  /** Listeners come only from commits. */
  lemma ListenerNumbers(s: State, step: Step)
    requires Enabled(s, step)
    ensures var t := Apply(s, step);
      && t.nextListener == (if step.CommitMount? then s.nextListener + 1 else s.nextListener)
      && (t.core.listener == s.core.listener || t.core.listener == None
          || (step.CommitMount? && t.core.listener == Some(s.nextListener)))
      && t.servers.Keys <= s.servers.Keys + (if step.CommitMount? then {s.nextListener} else {})
      && (forall l | l in t.closed ::
            || l in s.closed || s.core.listener == Some(l) || (step.CloseMount? && l == s.handlers[step.id].listener)
            || (step.Exit? && l < s.nextListener))
  {
    ClosedNumbers(s, step);
  }

  lemma ClosedNumbers(s: State, step: Step)
    requires Enabled(s, step)
    ensures forall l | l in Apply(s, step).closed ::
        || l in s.closed || s.core.listener == Some(l) || (step.CloseMount? && l == s.handlers[step.id].listener)
        || (step.Exit? && l < s.nextListener)
  {}

  lemma UnmountingKnown(s: State, step: Step)
    requires Enabled(s, step)
    ensures var t := Apply(s, step);
      forall id | id in t.handlers && t.handlers[id].Unmounting? ::
        || (id in s.handlers && s.handlers[id] == t.handlers[id])
        || s.core.listener == Some(t.handlers[id].listener)
  {
    if Idles(step) || OffTable(step) { IdleHandlers(s, step); }
  }

  predicate OffTable(step: Step) {
    step.CleanUp? || step.Fire? || step.LookIdle? || step.ShutdownListener? || step.Exit?
  }

  lemma IdleHandlers(s: State, step: Step)
    requires Enabled(s, step) && (Idles(step) || OffTable(step))
    ensures var t := Apply(s, step);
      forall id | id in t.handlers && t.handlers[id].Unmounting? ::
        || (id in s.handlers && s.handlers[id] == t.handlers[id])
        || (step.CheckUnmount? && s.core.listener == Some(t.handlers[id].listener))
  {
    assert OffTable(step) ==> Apply(s, step).handlers == s.handlers;
  }

  /** The two ways to forget a listener: a mount is committed while another server
      is open, or a server is cleaned up while another one is. */
  ghost predicate Forgets(s: State, step: Step) {
    || (step.CommitMount? && exists l: nat :: Open(s, l))
    || (step.CleanUp? && exists l: nat :: Open(s, l) && l != step.listener)
  }

  lemma ForgetsIff(s: State, step: Step)
    requires Numbered(s) && AllOnRecord(s) && Enabled(s, step)
    ensures AllOnRecord(Apply(s, step)) <==> !Forgets(s, step)
  {
    var t := Apply(s, step);
    if step.CommitMount? {
      CommitForgets(s, step);
    } else if step.CleanUp? {
      assert forall l: nat :: Open(t, l) <==> Open(s, l) && l != step.listener;
      assert t.core.listener == None;
    } else if step.Exit? {
      assert t.servers == map[];
    } else {
      assert forall l: nat :: Open(t, l) ==> Open(s, l);
      RecordKept(s, step);
    }
  }

  lemma CommitForgets(s: State, step: Step)
    requires Numbered(s) && Enabled(s, step) && step.CommitMount?
    ensures AllOnRecord(Apply(s, step)) <==> !exists l: nat :: Open(s, l)
  {
    var t := Apply(s, step);
    assert forall l: nat :: Open(t, l) <==> Open(s, l) || l == s.nextListener;
    assert t.core.listener == Some(s.nextListener);
  }

  lemma RecordKept(s: State, step: Step)
    requires Enabled(s, step) && !step.CommitMount? && !step.CleanUp? && !step.Exit?
    ensures var t := Apply(s, step);
      && (t.core.listener == s.core.listener
          || (s.core.listener.Some? && s.core.listener.value in t.closed))
      && s.closed <= t.closed && t.servers.Keys == s.servers.Keys
  {
    if Idles(step) {
      IdleFieldsKept(s, step);
    }
    ListenerNumbers(s, step);
    ServersOnlyGrow(s, step);
  }

  lemma ServersOnlyGrow(s: State, step: Step)
    requires Enabled(s, step) && !step.CleanUp? && !step.Exit?
    ensures s.closed <= Apply(s, step).closed && s.servers.Keys <= Apply(s, step).servers.Keys
  {}

  /** At every point of the run, every open listener is on record. */
  ghost predicate NeverForgotten(s: State, run: seq<Step>)
    requires Legal(s, run)
    decreases |run|
  {
    AllOnRecord(s) && (run == [] || NeverForgotten(Apply(s, run[0]), run[1..]))
  }

  ghost predicate NoForgetting(s: State, run: seq<Step>)
    requires Legal(s, run)
    decreases |run|
  {
    run == [] || (!Forgets(s, run[0]) && NoForgetting(Apply(s, run[0]), run[1..]))
  }

  /** Exactly the runs without such a step keep every open listener on record. */
  lemma {:induction false} NeverForgottenIff(s: State, run: seq<Step>)
    requires Numbered(s) && AllOnRecord(s) && Legal(s, run)
    ensures NeverForgotten(s, run) <==> NoForgetting(s, run)
    decreases |run|
  {
    if run != [] {
      ForgetsIff(s, run[0]);
      NumberedStep(s, run[0]);
      if AllOnRecord(Apply(s, run[0])) {
        NeverForgottenIff(Apply(s, run[0]), run[1..]);
      }
    }
  }

  lemma ListenersOnRecord(managed: bool, run: seq<Step>)
    requires Legal(Init(managed), run)
    ensures NeverForgotten(Init(managed), run) <==> NoForgetting(Init(managed), run)
  {
    NeverForgottenIff(Init(managed), run);
  }

  /** Neither the fields nor a handler about to unmount know the listener. */
  predicate Forgotten(s: State, l: nat) {
    && l < s.nextListener && l !in s.closed && s.core.listener != Some(l)
    && forall id | id in s.handlers :: s.handlers[id] != Unmounting(l)
  }

  lemma ForgottenStep(s: State, step: Step, l: nat)
    requires Forgotten(s, l) && Enabled(s, step)
    ensures if step.Exit? then l in Apply(s, step).closed else Forgotten(Apply(s, step), l)
  {
    ListenerNumbers(s, step);
    UnmountingKnown(s, step);
  }

  /** A forgotten listener is closed by nothing but the end of the process: no unmount
      reaches it, and of a stop or shutdown only the exit that follows it does. */
  lemma {:induction false} ForgottenUntilExit(s: State, run: seq<Step>, l: nat)
    requires Forgotten(s, l) && !s.exited && Legal(s, run)
    ensures var t := After(s, run);
      (l in t.closed <==> t.exited) && (!t.exited ==> Forgotten(t, l))
    decreases |run|
  {
    if run != [] {
      ForgottenStep(s, run[0], l);
      if run[0].Exit? {
        assert run[1..] == [];
      } else {
        ExitOnly(s, run[0]);
        ForgottenUntilExit(Apply(s, run[0]), run[1..], l);
      }
    }
  }

  lemma ExitOnly(s: State, step: Step)
    requires Enabled(s, step)
    ensures Apply(s, step).exited <==> step.Exit?
  {}

  /** And a forced stop can always be carried through to that exit, which closes every
      listener there is. */
  lemma StopEndsAll(s: State, id: nat) returns (run: seq<Step>)
    requires !s.exited && Is(s, id, Serving)
    ensures run != [] && run[0] == Stop(id, true) && Legal(s, run)
    ensures var t := After(s, run);
      t.exited && t.servers == map[] && forall l: nat | l < s.nextListener :: l in t.closed
  {
    run := [];
    Extend(s, run, Stop(id, true));     run := run + [Stop(id, true)];
    Extend(s, run, StartShutdown(id));  run := run + [StartShutdown(id)];
    assert After(s, run).nextListener == s.nextListener && After(s, run).shut1 > 0;
    run := ShutdownEndsAll(s, run);
  }

  /** A handler whose profile has been changed or removed under it can always be
      followed to the exit. */
  lemma RevocationEndsAll(s: State, id: nat) returns (run: seq<Step>)
    requires !s.exited && Is(s, id, Serving)
    ensures run != [] && run[0] == Revoke(id) && Legal(s, run)
    ensures var t := After(s, run);
      t.exited && t.servers == map[] && forall l: nat | l < s.nextListener :: l in t.closed
  {
    run := [];
    Extend(s, run, Revoke(id)); run := run + [Revoke(id)];
    assert After(s, run).nextListener == s.nextListener && After(s, run).shut1 > 0;
    run := ShutdownEndsAll(s, run);
  }

  /** So can a keepalive that finds the profile changed. */
  lemma KeepaliveEndsAll(s: State) returns (run: seq<Step>)
    requires !s.exited
    ensures run != [] && run[0] == KeepaliveRevokes && Legal(s, run) && After(s, run).exited
  {
    run := [];
    Extend(s, run, KeepaliveRevokes); run := run + [KeepaliveRevokes];
    assert After(s, run).shut1 > 0 && !After(s, run).exited;
    run := ShutdownEndsAll(s, run);
  }

  /** So can an unmount of a managed daemon, and it closes the listener on record; a
      persistent daemon closes that listener and goes on serving. */
  lemma UnmountCloses(s: State, id: nat, l: nat) returns (run: seq<Step>)
    requires !s.exited && Is(s, id, Serving) && s.core.sftpRunning && s.core.listener == Some(l)
    ensures Legal(s, run) && |run| >= 2 && run[0] == CheckUnmount(id) && run[1] == CloseMount(id)
    ensures l in After(s, run).closed && (After(s, run).exited <==> s.managed)
    ensures !s.managed ==> Is(After(s, run), id, Serving) && After(s, run).requested == s.requested
  {
    run := [];
    Extend(s, run, CheckUnmount(id)); run := run + [CheckUnmount(id)];
    Extend(s, run, CloseMount(id));   run := run + [CloseMount(id)];
    if s.managed {
      var mid := After(s, run);
      assert Is(mid, id, Closing) && l in mid.closed && !mid.exited;
      Extend(s, run, StartShutdown(id)); run := run + [StartShutdown(id)];
      assert After(s, run).shut1 > 0 && l in After(s, run).closed && !After(s, run).exited;
      run := ShutdownEndsAll(s, run);
    }
  }

  /** And so can the timer: an armed daemon with no handler and no mount can look and
      find itself idle. */
  lemma IdleEndsAll(s: State) returns (run: seq<Step>)
    requires !s.exited && s.core.timerArmed && s.core.conns == map[] && !s.core.sftpRunning
    ensures |run| >= 2 && run[0] == Fire && run[1] == LookIdle && Legal(s, run) && After(s, run).exited
  {
    run := [];
    Extend(s, run, Fire);     run := run + [Fire];
    Extend(s, run, LookIdle); run := run + [LookIdle];
    assert After(s, run).shut1 > 0 && !After(s, run).exited;
    run := ShutdownEndsAll(s, run);
  }

  lemma ShutdownEndsAll(s: State, run: seq<Step>) returns (run': seq<Step>)
    requires Legal(s, run) && !After(s, run).exited && After(s, run).shut1 > 0
    ensures run <= run' && Legal(s, run')
    ensures After(s, run).closed <= After(s, run').closed
    ensures var t, u := After(s, run), After(s, run');
      u.exited && u.servers == map[] && forall l: nat | l < t.nextListener :: l in u.closed
  {
    run' := run;
    Extend(s, run', ShutdownStop);    run' := run' + [ShutdownStop];
    Extend(s, run', ShutdownControl); run' := run' + [ShutdownControl];
    Extend(s, run', Exit);            run' := run' + [Exit];
  }

  /** Two connections that both see no mount commit a listener each, and the first
      is forgotten. When the second is unmounted, SFTP counts as not running while
      the first server still serves, on a listener that only the end of the process
      will close. */
  lemma TwoMountsRace() returns (run: seq<Step>)
    ensures Legal(Init(false), run)
    ensures var s := After(Init(false), run);
      !s.core.sftpRunning && s.servers == map[0 := false] && Forgotten(s, 0) && !s.exited
  {
    var s := Init(false);
    run := SecondUnmounted();
    Extend(s, run, ServeReturns(1)); run := run + [ServeReturns(1)];
    Extend(s, run, CleanUp(1));      run := run + [CleanUp(1)];
  }

  lemma SecondUnmounted() returns (run: seq<Step>)
    ensures Legal(Init(false), run)
    ensures var s := After(Init(false), run);
      && s.handlers == map[0 := Serving, 1 := Serving] && s.nextListener == 2 && !s.exited
      && s.servers == map[0 := false, 1 := false] && s.closed == {1}
  {
    var s := Init(false);
    run := TwoMounts();
    Extend(s, run, CheckUnmount(0)); run := run + [CheckUnmount(0)];
    Extend(s, run, CloseMount(0));   run := run + [CloseMount(0)];
  }

  lemma TwoMounts() returns (run: seq<Step>)
    ensures Legal(Init(false), run)
    ensures var s := After(Init(false), run);
      && !s.managed && s.handlers == map[0 := Serving, 1 := Serving] && s.nextListener == 2 && !s.exited && s.servers == map[0 := false, 1 := false] && s.closed == {}
      && s.core.sftpRunning && s.core.listener == Some(1)
  {
    var s := Init(false);
    run := [];
    Extend(s, run, Accept);         run := run + [Accept];
    Extend(s, run, Accept);         run := run + [Accept];
    Extend(s, run, Enter(0));       run := run + [Enter(0)];
    Extend(s, run, HushTimer(0));   run := run + [HushTimer(0)];
    Extend(s, run, Enter(1));       run := run + [Enter(1)];
    Extend(s, run, HushTimer(1));   run := run + [HushTimer(1)];
    Extend(s, run, CheckMount(0));  run := run + [CheckMount(0)];
    Extend(s, run, CheckMount(1));  run := run + [CheckMount(1)];
    Extend(s, run, CommitMount(0)); run := run + [CommitMount(0)];
    Extend(s, run, CommitMount(1)); run := run + [CommitMount(1)];
  }
}
