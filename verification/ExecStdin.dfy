/** The stdin direction of the exec exchange. */
module ExecStdin {
  import opened Base64
  import opened ExecProtocol
  import opened ExecSafety

  /** The payload the pump has decoded but not handed to the session yet. */
  function PumpHeld(p: Pump): seq<Byte> {
    if p.Writing? then p.payload else []
  }

  /** The chunk the stdin goroutine has read but not sent yet. */
  function FeederHeld(f: Feeder): seq<Byte> {
    if f.Sending? then f.chunk else []
  }

  /** All stdin bytes past the local read, in order. */
  function Passed(s: State): seq<Byte> {
    s.remoteIn + PumpHeld(s.pump) + StdinBytes(s.up)
  }

  /** No stdin frame has been dropped: the command is not launched yet but may
      still be, or the pump is running. */
  predicate Intact(s: State) {
    s.PumpLive() || (s.launches == 0 && (Fresh(s) || s.handler.Vetting? || s.handler.Launching?))
  }

  predicate EofLast(frames: seq<Request>) {
    frames != [] && frames[|frames| - 1].StdinEof?
  }

  /** The stdin goroutine has seen the end of the local stdin. */
  predicate SawEnd(f: Feeder) {
    f.Ending? || f.Gone? || (f.Sending? && f.last)
  }

  predicate Fed(c: Config, s: State) {
    && s.inPos <= |c.localIn|
    && s.remoteIn <= c.localIn[..s.inPos]
    && (Intact(s) ==> Passed(s) <= c.localIn[..s.inPos])
    && (Intact(s) && !s.feeder.Gone? ==> Passed(s) + FeederHeld(s.feeder) == c.localIn[..s.inPos])
    && (Intact(s) && s.feeder.Gone? && !s.ClientClosed() && !s.DaemonClosed() ==>
          EofLast(s.up) && Passed(s) == c.localIn[..s.inPos])
    && (SawEnd(s.feeder) && !s.Cancelled() && !s.DaemonClosed() ==>
          c.localEnds && s.inPos == |c.localIn|)
    && (s.pump.Stopped? && !s.Cancelled() && !s.faulted && !s.stdinFailed ==>
          c.localEnds && s.remoteIn == c.localIn)
  }

  lemma ReadEffect(c: Config, s: State, step: Step)
    requires Enabled(c, s, step) && step.ReadStdin?
    ensures var t := Apply(c, s, step);
      && t == s.(inPos := t.inPos, feeder := t.feeder) && s.inPos <= t.inPos <= |c.localIn|
      && s.feeder.Reading? && !t.feeder.Gone?
      && FeederHeld(t.feeder) == c.localIn[s.inPos..t.inPos]
      && (SawEnd(t.feeder) ==> s.Cancelled() || (c.localEnds && t.inPos == |c.localIn|))
  {}

  lemma ReadFurther(local: seq<Byte>, i: nat, j: nat, a: seq<Byte>)
    requires i <= j <= |local|
    ensures local[..j] == local[..i] + local[i..j]
    ensures a <= local[..i] ==> a <= local[..j]
  {}

  lemma FedRead(c: Config, s: State, step: Step)
    requires Shaped(s) && Fed(c, s) && Enabled(c, s, step) && step.ReadStdin?
    ensures Fed(c, Apply(c, s, step))
  {
    var t := Apply(c, s, step);
    ReadEffect(c, s, step);
    FedReadValues(c, s, t);
  }

  lemma FedReadValues(c: Config, s: State, t: State)
    requires Fed(c, s) && s.feeder.Reading? && !t.feeder.Gone?
    requires t == s.(inPos := t.inPos, feeder := t.feeder) && s.inPos <= t.inPos <= |c.localIn|
    requires FeederHeld(t.feeder) == c.localIn[s.inPos..t.inPos]
    requires SawEnd(t.feeder) ==> s.Cancelled() || (c.localEnds && t.inPos == |c.localIn|)
    ensures Fed(c, t)
  {
    assert Intact(t) == Intact(s) && Passed(t) == Passed(s);
    ReadFurther(c.localIn, s.inPos, t.inPos, s.remoteIn);
    ReadFurther(c.localIn, s.inPos, t.inPos, Passed(s));
  }

  lemma PassedAppend(s: State, f: Request, feeder: Feeder)
    requires f.Stdin? || f.StdinEof?
    requires !s.client.Starting?
    ensures var t := s.(up := s.up + [f], feeder := feeder);
      && Intact(t) == Intact(s) && Passed(t) == Passed(s) + StdinBytes([f])
  {
    StdinBytesAppend(s.up, f);
    var a, b, d := s.remoteIn + PumpHeld(s.pump), StdinBytes(s.up), StdinBytes([f]);
    assert a + (b + d) == (a + b) + d;
    assert (s.up + [f])[0] == if s.up == [] then f else s.up[0];
  }

  lemma FedSendEof(c: Config, s: State)
    requires Shaped(s) && Fed(c, s) && Enabled(c, s, SendEof)
    requires !s.ClientClosed() && !s.DaemonClosed()
    ensures Fed(c, Apply(c, s, SendEof))
  {
    PassedAppend(s, StdinEof, Gone);
    SentBytes([]);
    assert Apply(c, s, SendEof) == s.(up := s.up + [StdinEof], feeder := Gone);
  }

  lemma FedSendStdin(c: Config, s: State)
    requires Shaped(s) && Fed(c, s) && Enabled(c, s, SendStdin)
    requires !s.ClientClosed() && !s.DaemonClosed()
    ensures Fed(c, Apply(c, s, SendStdin))
  {
    var f, next := Stdin(Encode(s.feeder.chunk)), if s.feeder.last then Ending else Reading;
    PassedAppend(s, f, next);
    SentBytes(s.feeder.chunk);
    assert Apply(c, s, SendStdin) == s.(up := s.up + [f], feeder := next);
  }

  lemma FedSendFails(c: Config, s: State, step: Step)
    requires Shaped(s) && Fed(c, s) && Enabled(c, s, step) && (step.SendStdin? || step.SendEof?)
    requires s.ClientClosed() || s.DaemonClosed()
    ensures Fed(c, Apply(c, s, step))
  {
    var t := Apply(c, s, step);
    assert Intact(t) == Intact(s) && Passed(t) == Passed(s);
  }

  lemma SentBytes(chunk: seq<Byte>)
    ensures StdinBytes([Stdin(Encode(chunk))]) == chunk
    ensures StdinBytes([StdinEof]) == []
  {
    RoundTrip(chunk);
    assert StdinBytes([]) == [];
  }

  lemma PassedDecode(s: State)
    requires s.pump.Decoding? && s.up != [] && s.up[0].Stdin?
    ensures var data := s.up[0].data;
      Passed(s.(up := s.up[1..], pump := if data == "" then Decoding else Writing(Payload(data)))) == Passed(s)
  {
    var p, rest := Payload(s.up[0].data), StdinBytes(s.up[1..]);
    assert StdinBytes(s.up) == p + rest;
    assert Payload("") == [];
    assert s.remoteIn + [] + (p + rest) == s.remoteIn + p + rest;
  }

  lemma FedPumpDecode(c: Config, s: State)
    requires Shaped(s) && Fed(c, s) && Enabled(c, s, PumpDecode)
    ensures Fed(c, Apply(c, s, PumpDecode))
  {
    if s.up[0].Stdin? {
      PassedDecode(s);
      assert EofLast(s.up) ==> EofLast(s.up[1..]);
    } else {
      assert s.up == [StdinEof];
      assert StdinBytes(s.up) == [] + StdinBytes([]);
      assert Passed(s) == s.remoteIn;
    }
  }

  lemma FedPumpWrite(c: Config, s: State, step: Step)
    requires Shaped(s) && Fed(c, s) && Enabled(c, s, step) && step.PumpWrite?
    ensures Fed(c, Apply(c, s, step))
  {
    var t := Apply(c, s, step);
    var p := s.pump.payload;
    Regrouped(s.remoteIn, p, StdinBytes(s.up), step.n);
    assert t.remoteIn <= Passed(s);
    assert step.ok ==> p[..step.n] == p && Passed(t) == Passed(s);
  }

  lemma Regrouped(a: seq<Byte>, p: seq<Byte>, b: seq<Byte>, n: nat)
    requires n <= |p|
    ensures a + p + b == a + p[..n] + (p[n..] + b)
  {}

  lemma FedDispatch(c: Config, s: State)
    requires Shaped(s) && Fed(c, s) && Enabled(c, s, Dispatch)
    ensures Fed(c, Apply(c, s, Dispatch))
  {
    var t := Apply(c, s, Dispatch);
    assert Intact(t) ==> Intact(s) && s.up[0].Exec? && Passed(t) == Passed(s);
  }

  lemma FedSendExec(c: Config, s: State)
    requires Shaped(s) && Fed(c, s) && Enabled(c, s, SendExec)
    ensures Fed(c, Apply(c, s, SendExec))
  {
    var t := Apply(c, s, SendExec);
    assert t.up == [] || t.up == [Exec];
    assert StdinBytes(t.up) == [];
    assert Passed(t) == Passed(s);
  }

  lemma ClientEffect(c: Config, s: State, step: Step)
    requires Enabled(c, s, step) && (step.Receive? || step.ReceiveEof? || step.CloseClient?)
    ensures var t := Apply(c, s, step);
      && t.(client := s.client, gotOut := s.gotOut, gotErr := s.gotErr, down := s.down) == s
      && (s.Cancelled() ==> t.Cancelled()) && (s.ClientClosed() ==> t.ClientClosed())
      && !t.client.Starting?
  {}

  lemma FedClient(c: Config, s: State, step: Step)
    requires Shaped(s) && Fed(c, s) && Enabled(c, s, step)
    requires step.Receive? || step.ReceiveEof? || step.CloseClient?
    ensures Fed(c, Apply(c, s, step))
  {
    ClientEffect(c, s, step);
    var t := Apply(c, s, step);
    assert Intact(t) == Intact(s) && Passed(t) == Passed(s);
  }

  lemma OtherEffect(c: Config, s: State, step: Step)
    requires Shaped(s) && Enabled(c, s, step)
    requires step.HangUp? || step.Vet? || step.Launch? || step.Join? || step.StdinDone? || step.WriteExit?
          || step.WriteError? || step.PumpEof? || step.StreamRead? || step.StreamWrite? || step.Crash?
    ensures var t := Apply(c, s, step);
      && t.client == s.client && t.feeder == s.feeder && t.inPos == s.inPos && t.up == s.up
      && t.remoteIn == s.remoteIn && (s.faulted ==> t.faulted) && t.stdinFailed == s.stdinFailed
      && (Intact(t) ==> Intact(s) && PumpHeld(t.pump) == PumpHeld(s.pump))
      && (s.DaemonClosed() ==> t.DaemonClosed())
      && (t.pump.Stopped? ==> s.pump.Stopped? || t.faulted || t.ClientClosed())
  {
    if step.StreamRead? || step.StreamWrite? {
      StreamAloof(c, s, step);
    } else if !step.Vet? && !step.Launch? && !step.PumpEof? && !step.Crash? {
      HandlerAloof(c, s, step);
    }
  }

  lemma StreamAloof(c: Config, s: State, step: Step)
    requires Enabled(c, s, step) && (step.StreamRead? || step.StreamWrite?)
    ensures var t := Apply(c, s, step); t == s.(out := t.out, err := t.err, down := t.down)
  {}

  lemma HandlerAloof(c: Config, s: State, step: Step)
    requires Enabled(c, s, step)
    requires step.HangUp? || step.Join? || step.StdinDone? || step.WriteExit? || step.WriteError?
    ensures var t := Apply(c, s, step); t == s.(handler := t.handler, down := t.down)
  {}

  lemma FedOther(c: Config, s: State, step: Step)
    requires Shaped(s) && Fed(c, s) && Enabled(c, s, step)
    requires step.HangUp? || step.Vet? || step.Launch? || step.Join? || step.StdinDone? || step.WriteExit?
          || step.WriteError? || step.PumpEof? || step.StreamRead? || step.StreamWrite? || step.Crash?
    ensures Fed(c, Apply(c, s, step))
  {
    OtherEffect(c, s, step);
  }

  lemma FedDisconnect(c: Config, s: State)
    requires Fed(c, s) && Enabled(c, s, Disconnect)
    ensures Fed(c, Apply(c, s, Disconnect))
  {
    var t := Apply(c, s, Disconnect);
    assert Intact(t) ==> Intact(s) && Passed(t) == Passed(s);
  }

  lemma FedStep(c: Config, s: State, step: Step)
    requires Shaped(s) && Fed(c, s) && Enabled(c, s, step)
    ensures Fed(c, Apply(c, s, step))
  {
    match step {
      case ReadStdin(_, _) => FedRead(c, s, step);
      case SendStdin =>
        if s.ClientClosed() || s.DaemonClosed() { FedSendFails(c, s, step); } else { FedSendStdin(c, s); }
      case SendEof =>
        if s.ClientClosed() || s.DaemonClosed() { FedSendFails(c, s, step); } else { FedSendEof(c, s); }
      case PumpDecode => FedPumpDecode(c, s);
      case PumpWrite(_, _) => FedPumpWrite(c, s, step);
      case Dispatch => FedDispatch(c, s);
      case SendExec => FedSendExec(c, s);
      case Receive => FedClient(c, s, step);
      case ReceiveEof => FedClient(c, s, step);
      case CloseClient => FedClient(c, s, step);
      case Disconnect => FedDisconnect(c, s);
      case _ => FedOther(c, s, step);
    }
  }
}
