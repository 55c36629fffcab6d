/**
 When the exec exchange can get stuck.

 The daemon sends `exit` only after the stdin pump has stopped, and the client
 cancels its stdin only after it has read `exit`. So if the local stdin never
 ends, a finished remote command leaves both sides waiting for each other; if it
 does end, they never do. The other way out is a client that goes away: then the
 daemon's side always comes to its end.
 */
module ExecDeadlock {
  import opened Base64
  import opened ExecProtocol
  import opened ExecSafety
  import opened ExecStdin
  import opened ExecLiveness

  /** Both ends are done with the connection. */
  predicate Terminal(s: State) {
    s.client.Returned? && s.handler.Closed? && s.feeder.Gone?
  }

  /** A step that is no refusal, failure or death of either process. */
  predicate Benign(step: Step) {
    match step
    case Vet(ok) => ok
    case Launch(ok) => ok
    case PumpWrite(_, ok) => ok
    case Disconnect => false
    case Crash => false
    case _ => true
  }

  /** Only the death of a process could still change the state. */
  ghost predicate Idle(c: Config, s: State) {
    forall step :: Enabled(c, s, step) ==> step.Crash? || step.Disconnect?
  }

  ghost predicate Stuck(c: Config, s: State) {
    !Terminal(s) && Idle(c, s)
  }

  /** The command has finished and its output is delivered, but the pump waits
      for a local stdin that stays silent. */
  predicate Hung(c: Config, s: State) {
    && s.client.Receiving? && s.down == [] && s.up == []
    && s.handler.AwaitingStdin? && s.pump.Decoding? && s.feeder.Reading?
    && s.inPos == |c.localIn| && !c.localEnds
  }

  function Min(a: nat, b: nat): nat { if a < b then a else b }

  function NextRead(x: Streamer, ch: Channel, r: seq<Byte>): Step
    requires x.pos <= |r|
  {
    var n := Min(CHUNK, |r| - x.pos);
    StreamRead(ch, n, n == |r| - x.pos)
  }

  lemma StreamProgress(c: Config, s: State) returns (step: Step)
    requires Inv(c, s) && s.handler.Streaming? && CanWrite(c, s)
    ensures Benign(step) && Enabled(c, s, step)
  {
    if s.out.pc.Fetch? {
      step := NextRead(s.out, Out, c.remoteOut);
    } else if s.out.pc.Emit? {
      step := StreamWrite(Out);
    } else if s.err.pc.Fetch? {
      step := NextRead(s.err, Err, c.remoteErr);
    } else if s.err.pc.Emit? {
      step := StreamWrite(Err);
    } else {
      step := Join;
    }
  }

  lemma PumpProgress(c: Config, s: State) returns (step: Step)
    requires c.capacity > 0 && Inv(c, s) && s.handler.AwaitingStdin? && !s.client.Starting? && !Hung(c, s)
    requires s.down == [] && !s.client.Finishing?
    ensures Benign(step) && Enabled(c, s, step)
  {
    if s.pump.Stopped? {
      step := StdinDone;
    } else if s.pump.Writing? {
      step := PumpWrite(|s.pump.payload|, true);
    } else if s.ClientClosed() {
      step := PumpEof;
    } else if s.up != [] {
      step := PumpDecode;
    } else {
      step := FeederProgress(c, s);
    }
  }

  lemma FeederProgress(c: Config, s: State) returns (step: Step)
    requires c.capacity > 0 && Inv(c, s) && s.handler.AwaitingStdin? && s.client.Receiving? && !Hung(c, s)
    requires s.down == [] && s.up == [] && s.pump.Decoding?
    ensures Benign(step) && Enabled(c, s, step)
  {
    if s.feeder.Reading? {
      var n := Min(CHUNK, |c.localIn| - s.inPos);
      step := ReadStdin(n, c.localEnds && n == |c.localIn| - s.inPos);
    } else if s.feeder.Sending? {
      step := SendStdin;
    } else {
      assert !EofLast(s.up);
      step := SendEof;
    }
  }

  lemma HandlerProgress(c: Config, s: State) returns (step: Step)
    requires c.capacity > 0 && Inv(c, s) && !Hung(c, s) && !s.DaemonClosed() && CanWrite(c, s)
    requires s.client.Returned? || (s.client.Receiving? && s.down == [])
    ensures Benign(step) && Enabled(c, s, step)
  {
    match s.handler {
      case Idle => step := if s.ClientClosed() then HangUp else Dispatch;
      case Vetting => step := Vet(true);
      case Launching => step := Launch(true);
      case Refusing(_) => step := WriteError;
      case Exiting => step := WriteExit;
      case Streaming => step := StreamProgress(c, s);
      case AwaitingStdin =>
        if s.ClientClosed() {
          step := if s.pump.Stopped? then StdinDone
                  else if s.pump.Writing? then PumpWrite(|s.pump.payload|, true) else PumpEof;
        } else {
          step := PumpProgress(c, s);
        }
    }
  }

  /** Every state of every run can go on without a fault, unless both ends are
      done or the exchange hangs on a silent local stdin. */
  lemma Progress(c: Config, s: State) returns (step: Step)
    requires c.capacity > 0 && Inv(c, s) && !Terminal(s) && !Hung(c, s)
    ensures Benign(step) && Enabled(c, s, step)
  {
    match s.client {
      case Starting => step := SendExec;
      case Finishing(_) => step := CloseClient;
      case Receiving =>
        if s.down != [] {
          step := Receive;
        } else if s.DaemonClosed() {
          step := ReceiveEof;
        } else {
          step := HandlerProgress(c, s);
        }
      case Returned(_) =>
        if !s.DaemonClosed() {
          step := HandlerProgress(c, s);
        } else {
          step := if s.feeder.Reading? then ReadStdin(0, true)
                  else if s.feeder.Sending? then SendStdin else SendEof;
        }
    }
  }

  lemma HungIsStuck(c: Config, s: State)
    requires Inv(c, s) && Hung(c, s)
    ensures Stuck(c, s)
  {
    forall step | Enabled(c, s, step)
      ensures step.Crash? || step.Disconnect?
    {
    }
  }

  /** While nothing fails and the local stdin stays open, no eof is ever sent, so
      the pump of a launched command never stops. */
  predicate Waiting(s: State) {
    && !s.faulted && !s.stdinFailed && !s.Cancelled()
    && (s.feeder.Unborn? || s.feeder.Reading? || (s.feeder.Sending? && !s.feeder.last))
    && !s.pump.Stopped? && !s.handler.Exiting?
    && (forall f | f in s.up :: !f.StdinEof?)
    && (forall f | f in s.down :: f.Output?)
  }

  lemma WaitingClient(c: Config, s: State, step: Step)
    requires Inv(c, s) && Waiting(s) && !c.localEnds && Enabled(c, s, step)
    requires step.SendExec? || step.Receive? || step.ReceiveEof? || step.CloseClient?
          || step.ReadStdin? || step.SendStdin? || step.SendEof?
    ensures Waiting(Apply(c, s, step))
  {
    if step.Receive? {
      assert s.down[0] in s.down;
    }
  }

  lemma WaitingDaemon(c: Config, s: State, step: Step)
    requires Inv(c, s) && Waiting(s) && Enabled(c, s, step) && Benign(step)
    requires !step.SendExec? && !step.Receive? && !step.ReceiveEof? && !step.CloseClient?
          && !step.ReadStdin? && !step.SendStdin? && !step.SendEof? && !step.StreamRead? && !step.StreamWrite?
    ensures Waiting(Apply(c, s, step))
  {
    if step.PumpDecode? {
      assert s.up[0] in s.up;
    }
  }

  lemma WaitingStep(c: Config, s: State, step: Step)
    requires Inv(c, s) && Waiting(s) && !c.localEnds && Enabled(c, s, step) && Benign(step)
    ensures Waiting(Apply(c, s, step))
  {
    if step.SendExec? || step.Receive? || step.ReceiveEof? || step.CloseClient?
       || step.ReadStdin? || step.SendStdin? || step.SendEof? {
      WaitingClient(c, s, step);
    } else if step.StreamRead? || step.StreamWrite? {
      StreamEffect(c, s, step);
    } else {
      WaitingDaemon(c, s, step);
    }
  }

  /** With a local stdin that never ends, a run without any fault ends stuck. */
  lemma {:induction false} RunToHang(c: Config, s: State) returns (run: seq<Step>)
    requires c.capacity > 0 && !c.localEnds && Inv(c, s) && Waiting(s)
    ensures Legal(c, s, run) && Hung(c, After(c, s, run)) && Inv(c, After(c, s, run))
    decreases Measure(c, s)
  {
    if Hung(c, s) {
      run := [];
    } else {
      var step := Progress(c, s);
      InvStep(c, s, step);
      WaitingStep(c, s, step);
      MeasureStep(c, s, step);
      MeasurePositive(c, Apply(c, s, step));
      var rest := RunToHang(c, Apply(c, s, step));
      run := [step] + rest;
      assert run[1..] == rest;
    }
  }

  /** The hang is the only way to get stuck, in any run. */
  lemma StuckIffHung(c: Config, run: seq<Step>)
    requires c.capacity > 0 && Legal(c, Init(), run)
    ensures Stuck(c, After(c, Init(), run)) <==> Hung(c, After(c, Init(), run))
  {
    InvInit(c);
    InvRun(c, Init(), run);
    IdleOnlyIf(c, After(c, Init(), run));
  }

  lemma IdleOnlyIf(c: Config, s: State)
    requires c.capacity > 0 && Inv(c, s)
    ensures Stuck(c, s) <==> Hung(c, s)
    ensures Idle(c, s) && !Hung(c, s) ==> Terminal(s)
  {
    if Hung(c, s) {
      HungIsStuck(c, s);
    } else if !Terminal(s) {
      var step := Progress(c, s);
    }
  }

  /** No run gets stuck. */
  ghost predicate DeadlockFree(c: Config) {
    forall run | Legal(c, Init(), run) :: !Stuck(c, After(c, Init(), run))
  }

  /** The exchange is deadlock-free exactly when the local stdin ends. */
  lemma DeadlockFreeIffStdinEnds(c: Config)
    requires c.capacity > 0
    ensures DeadlockFree(c) <==> c.localEnds
  {
    InvInit(c);
    if c.localEnds {
      forall run | Legal(c, Init(), run)
        ensures !Stuck(c, After(c, Init(), run))
      {
        StuckIffHung(c, run);
      }
    } else {
      var run := RunToHang(c, Init());
      HungIsStuck(c, After(c, Init(), run));
    }
  }

  /** A run that can only continue by the death of a process. */
  ghost predicate Maximal(c: Config, run: seq<Step>) {
    Legal(c, Init(), run) && Idle(c, After(c, Init(), run))
  }

  /** When the local stdin ends, every maximal run ends with both ends done. If
      nothing was refused and nobody died, the client returns the remote exit code
      and has written all of the remote output; and unless the command stopped
      reading, it has been given all of the local stdin. */
  lemma Completes(c: Config, run: seq<Step>)
    requires c.capacity > 0 && c.localEnds && Maximal(c, run)
    ensures var s := After(c, Init(), run);
      && Terminal(s) && |run| <= Measure(c, Init())
      && (!s.faulted ==>
            && s.client.result == ExitCode(c.exitCode)
            && s.gotOut == c.remoteOut && s.gotErr == c.remoteErr
            && (!s.stdinFailed ==> s.remoteIn == c.localIn))
  {
    InvInit(c);
    InvRun(c, Init(), run);
    RunsAreFinite(c, Init(), run);
    IdleOnlyIf(c, After(c, Init(), run));
  }

  lemma {:induction false} ClosedStays(c: Config, s: State, run: seq<Step>)
    requires Inv(c, s) && Legal(c, s, run) && s.ClientClosed()
    ensures After(c, s, run).ClientClosed()
    decreases |run|
  {
    if run != [] {
      InvStep(c, s, run[0]);
      ClosedStep(c, s, run[0]);
      ClosedStays(c, Apply(c, s, run[0]), run[1..]);
    }
  }

  lemma ClosedStep(c: Config, s: State, step: Step)
    requires Enabled(c, s, step) && s.ClientClosed()
    ensures Apply(c, s, step).ClientClosed()
  {
    if step.StreamWrite? {
      assert Apply(c, s, step).client == s.client;
    }
  }

  /** Once the client is gone, at whatever point and whether or not its stdin would
      ever have ended, the daemon cannot hang: it has only so many steps left, and
      when it has taken them its handler has returned, the pump has stopped and both
      streamers are done. */
  lemma DisconnectEnds(c: Config, run: seq<Step>, more: seq<Step>)
    requires c.capacity > 0 && Legal(c, Init(), run) && After(c, Init(), run).ClientClosed()
    requires Legal(c, After(c, Init(), run), more)
    ensures var s := After(c, Init(), run); var t := After(c, s, more);
      && |more| <= Measure(c, s)
      && (Idle(c, t) ==>
            && Terminal(t) && !t.PumpLive()
            && (t.out.pc.NoStream? || t.out.pc.Done?) && (t.err.pc.NoStream? || t.err.pc.Done?))
  {
    InvInit(c);
    InvRun(c, Init(), run);
    var s := After(c, Init(), run);
    RunsAreFinite(c, s, more);
    InvRun(c, s, more);
    ClosedStays(c, s, more);
    IdleOnlyIf(c, After(c, s, more));
    if Idle(c, After(c, s, more)) {
      TerminalDone(After(c, s, more));
    }
  }

  lemma TerminalDone(t: State)
    requires Shaped(t) && t.DaemonClosed()
    ensures !t.PumpLive()
    ensures (t.out.pc.NoStream? || t.out.pc.Done?) && (t.err.pc.NoStream? || t.err.pc.Done?)
  {}
}
