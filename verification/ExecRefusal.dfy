/** A command that is refused, because its profile has changed or the session cannot
    be started, leaves no trace. */
module ExecRefusal {
  import opened Base64
  import opened ExecProtocol
  import opened ExecSafety
  import opened ExecStdin
  import opened ExecLiveness
  import opened ExecDeadlock

  /** No command has been started and none will be: the request has been consumed. */
  predicate Refused(s: State) {
    s.launches == 0 && !Fresh(s) && (s.handler.Refusing? || s.handler.Idle? || s.handler.Closed?)
  }

  /** And the handler is about to hang up. */
  predicate Ending(s: State) {
    s.handler == Refusing(true) || s.handler.Closed?
  }

  lemma RefusedStep(c: Config, s: State, step: Step)
    requires Shaped(s) && Refused(s) && Enabled(c, s, step)
    ensures Refused(Apply(c, s, step)) && (Ending(s) ==> Ending(Apply(c, s, step)))
  {
    if OfClient(step) {
      assert !Fresh(Apply(c, s, step));
    }
  }

  lemma RefusalStep(c: Config, s: State, step: Step)
    requires Shaped(s) && Enabled(c, s, step) && (step == Vet(false) || step == Launch(false))
    ensures Refused(Apply(c, s, step)) && (step == Vet(false) ==> Ending(Apply(c, s, step)))
  {}

  lemma {:induction false} RefusedRun(c: Config, s: State, run: seq<Step>)
    requires Inv(c, s) && Legal(c, s, run)
    requires Refused(s) || Vet(false) in run || Launch(false) in run
    ensures Refused(After(c, s, run))
    ensures (Refused(s) && Ending(s)) || Vet(false) in run ==> Ending(After(c, s, run))
    decreases |run|
  {
    if run != [] {
      InvStep(c, s, run[0]);
      if run[0] == Vet(false) || run[0] == Launch(false) {
        RefusalStep(c, s, run[0]);
      } else if Refused(s) {
        RefusedStep(c, s, run[0]);
      }
      assert forall x | x in run :: x == run[0] || x in run[1..];
      RefusedRun(c, Apply(c, s, run[0]), run[1..]);
    }
  }

  /** Once the profile has been found changed, or the start has failed, no command runs
      then or later: nothing reaches a remote stdin and no output or exit code reaches
      the client. A changed profile also ends the connection: no other request on it is
      served. */
  lemma RefusedLeavesNothing(c: Config, run: seq<Step>)
    requires Legal(c, Init(), run) && (Vet(false) in run || Launch(false) in run)
    ensures var s := After(c, Init(), run);
      && s.launches == 0 && s.remoteIn == [] && s.gotOut == [] && s.gotErr == []
      && !Outcome(s).ExitCode?
      && (Vet(false) in run ==> s.handler == Refusing(true) || s.handler.Closed?)
  {
    InvInit(c);
    InvRun(c, Init(), run);
    RefusedRun(c, Init(), run);
  }

  /** Conversely, a command runs only after its profile has been found unchanged and
      the start has worked. */
  lemma {:induction false} LaunchedAfterVetting(c: Config, s: State, run: seq<Step>)
    requires Legal(c, s, run) && After(c, s, run).launches > s.launches
    ensures Launch(true) in run
    decreases |run|
  {
    assert run != [];
    var t := Apply(c, s, run[0]);
    if t.launches > s.launches {
      LaunchedNow(c, s, run[0]);
    } else {
      LaunchedAfterVetting(c, t, run[1..]);
      assert forall x | x in run[1..] :: x in run;
    }
  }

  lemma LaunchedNow(c: Config, s: State, step: Step)
    requires Enabled(c, s, step) && Apply(c, s, step).launches > s.launches
    ensures step == Launch(true) && s.handler.Launching?
  {}

  lemma {:induction false} LaunchNeedsVet(c: Config, s: State, run: seq<Step>)
    requires Legal(c, s, run) && Launch(true) in run && !s.handler.Launching?
    ensures Vet(true) in run
    decreases |run|
  {
    assert run[0] != Launch(true);
    VettedNow(c, s, run[0]);
    if run[0] != Vet(true) {
      assert forall x | x in run :: x == run[0] || x in run[1..];
      LaunchNeedsVet(c, Apply(c, s, run[0]), run[1..]);
      assert forall x | x in run[1..] :: x in run;
    }
  }

  lemma VettedNow(c: Config, s: State, step: Step)
    requires Enabled(c, s, step) && !s.handler.Launching?
    ensures Apply(c, s, step).handler.Launching? ==> step == Vet(true)
  {}

  lemma NoCommandUnvetted(c: Config, run: seq<Step>)
    requires Legal(c, Init(), run) && After(c, Init(), run).launches > 0
    ensures Vet(true) in run && Launch(true) in run
  {
    LaunchedAfterVetting(c, Init(), run);
    LaunchNeedsVet(c, Init(), run);
  }
}
