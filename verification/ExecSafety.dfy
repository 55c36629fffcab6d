/** What every step of the exec exchange keeps, and what holds over every run. */
module ExecSafety {
  import opened Base64
  import opened ExecProtocol

  /** The payload bytes that frames in flight carry for one output channel. */
  function FrameBytes(frames: seq<Response>, ch: Channel): seq<Byte> {
    if frames == [] then []
    else (if frames[0].Output? && frames[0].channel == ch then Payload(frames[0].data) else [])
         + FrameBytes(frames[1..], ch)
  }

  /** The stdin bytes that request frames in flight carry. */
  function StdinBytes(frames: seq<Request>): seq<Byte> {
    if frames == [] then []
    else (if frames[0].Stdin? then Payload(frames[0].data) else []) + StdinBytes(frames[1..])
  }

  lemma {:induction false} FrameBytesAppend(frames: seq<Response>, f: Response, ch: Channel)
    ensures FrameBytes(frames + [f], ch) == FrameBytes(frames, ch) + FrameBytes([f], ch)
  {
    if frames != [] {
      FrameBytesAppend(frames[1..], f, ch);
      assert (frames + [f])[1..] == frames[1..] + [f];
    }
  }

  lemma {:induction false} StdinBytesAppend(frames: seq<Request>, f: Request)
    ensures StdinBytes(frames + [f]) == StdinBytes(frames) + StdinBytes([f])
  {
    if frames != [] {
      StdinBytesAppend(frames[1..], f);
      assert (frames + [f])[1..] == frames[1..] + [f];
    }
  }

  // ---- control shape ----

  /** The exec request has not been taken off the connection yet. */
  predicate Fresh(s: State) {
    s.client.Starting? || (s.up != [] && s.up[0].Exec?)
  }

  predicate BeforeLaunch(s: State) {
    && s.launches == 0 && s.pump.Off? && s.remoteIn == []
    && s.out == s.err == Streamer(NoStream, 0)
    && !s.handler.Streaming? && !s.handler.AwaitingStdin? && !s.handler.Exiting?
    && (Fresh(s) ==> s.down == [] && (s.handler.Idle? || s.handler.Closed?))
    && (s.handler.Vetting? || s.handler.Launching? || s.handler.Refusing? ==> s.down == [])
    && (s.handler.Refusing? ==> s.faulted)
    && s.gotOut == s.gotErr == []
    && (s.down == [] || s.down == [Failed])
  }

  predicate AfterLaunch(s: State) {
    && s.launches == 1 && !s.pump.Off? && !s.out.pc.NoStream? && !s.err.pc.NoStream?
    && !Fresh(s)
    && !s.handler.Vetting? && !s.handler.Launching? && !s.handler.Refusing?
    && (s.PumpLive() ==> s.handler.Streaming? || s.handler.AwaitingStdin?)
    && (!s.handler.Streaming? ==> s.out.pc.Done? && s.err.pc.Done?)
  }

  /** Requests in flight: exec first, then stdin frames, then at most one eof. */
  predicate Requests(up: seq<Request>, feeder: Feeder) {
    forall i | 0 <= i < |up| ::
      && !up[i].Other?
      && (up[i].Exec? ==> i == 0)
      && (up[i].StdinEof? ==> i == |up| - 1 && feeder.Gone?)
  }

  predicate Shaped(s: State) {
    && s.controls == 0
    && (s.feeder.Unborn? <==> s.client.Starting?)
    && (s.client.Starting? ==> s.up == [])
    && Requests(s.up, s.feeder)
    && (BeforeLaunch(s) || AfterLaunch(s))
  }

  lemma ShapedClientStep(c: Config, s: State, step: Step)
    requires Shaped(s) && Enabled(c, s, step)
    requires step.SendExec? || step.Receive? || step.ReceiveEof? || step.CloseClient? || step.Disconnect?
    ensures Shaped(Apply(c, s, step))
  {
  }

  lemma RequestsAppend(up: seq<Request>, feeder: Feeder, f: Request, feeder': Feeder)
    requires Requests(up, feeder) && !feeder.Gone?
    requires f.Stdin? || (f.StdinEof? && feeder'.Gone?)
    ensures Requests(up + [f], feeder')
  {}

  lemma ShapedFeederStep(c: Config, s: State, step: Step)
    requires Shaped(s) && Enabled(c, s, step)
    requires step.ReadStdin? || step.SendStdin? || step.SendEof?
    ensures Shaped(Apply(c, s, step))
  {
    var t := Apply(c, s, step);
    if t.up != s.up {
      RequestsAppend(s.up, s.feeder, t.up[|s.up|], t.feeder);
    }
    assert Fresh(t) == Fresh(s);
    assert BeforeLaunch(s) ==> BeforeLaunch(t);
    assert AfterLaunch(s) ==> AfterLaunch(t);
  }

  lemma ShapedHandlerStep(c: Config, s: State, step: Step)
    requires Shaped(s) && Enabled(c, s, step)
    requires step.HangUp? || step.Vet? || step.Launch? || step.Join? || step.StdinDone?
          || step.WriteExit? || step.WriteError? || step.Crash?
    ensures Shaped(Apply(c, s, step))
  {
  }

  lemma ShapedDecoderStep(c: Config, s: State, step: Step)
    requires Shaped(s) && Enabled(c, s, step)
    requires step.Dispatch? || step.PumpDecode? || step.PumpEof? || step.PumpWrite?
    ensures Shaped(Apply(c, s, step))
  {
  }

  lemma ShapedStreamStep(c: Config, s: State, step: Step)
    requires Shaped(s) && Enabled(c, s, step)
    requires step.StreamRead? || step.StreamWrite?
    ensures Shaped(Apply(c, s, step))
  {
  }

  lemma ShapedStep(c: Config, s: State, step: Step)
    requires Shaped(s) && Enabled(c, s, step)
    ensures Shaped(Apply(c, s, step))
  {
    if step.SendExec? || step.Receive? || step.ReceiveEof? || step.CloseClient? || step.Disconnect? {
      ShapedClientStep(c, s, step);
    } else if step.ReadStdin? || step.SendStdin? || step.SendEof? {
      ShapedFeederStep(c, s, step);
    } else if step.Dispatch? || step.PumpDecode? || step.PumpEof? || step.PumpWrite? {
      ShapedDecoderStep(c, s, step);
    } else if step.StreamRead? || step.StreamWrite? {
      ShapedStreamStep(c, s, step);
    } else {
      ShapedHandlerStep(c, s, step);
    }
  }

  // ---- remote output ----

  /** Everything of one channel that has been put on the connection. */
  function Sent(s: State, ch: Channel): seq<Byte> {
    s.Got(ch) + FrameBytes(s.down, ch)
  }

  /** The chunk a streamer has read but not written yet. */
  function Held(x: Streamer): seq<Byte> {
    if x.pc.Emit? then x.pc.chunk else []
  }

  /** A streamer has read `x.pos` bytes of `r`, of which `sent` are on the wire. */
  predicate Tracks(x: Streamer, r: seq<Byte>, sent: seq<Byte>, lossless: bool, alive: bool) {
    && x.pos <= |r|
    && sent <= r[..x.pos]
    && (lossless ==> sent + Held(x) == r[..x.pos])
    && (x.pc.Emit? && x.pc.last ==> x.pos == |r|)
    && (x.pc.Done? && alive ==> x.pos == |r|)
  }

  /** Nothing of the channel is reordered, duplicated or invented, and while
      both ends are open nothing is missing either. */
  predicate Delivered(c: Config, s: State, ch: Channel) {
    Tracks(s.Stream(ch), c.Remote(ch), Sent(s, ch),
           !s.DaemonClosed() && !s.ClientClosed(), !s.DaemonClosed())
  }

  lemma TracksRead(x: Streamer, r: seq<Byte>, sent: seq<Byte>, lossless: bool, alive: bool, n: nat, last: bool)
    requires Tracks(x, r, sent, lossless, alive) && x.pc.Fetch?
    requires x.pos + n <= |r| && (last ==> x.pos + n == |r|) && (n > 0 || last)
    ensures Tracks(Streamer(if n > 0 then Emit(r[x.pos..x.pos + n], last) else Done, x.pos + n),
                   r, sent, lossless, alive)
  {
    assert r[..x.pos + n] == r[..x.pos] + r[x.pos..x.pos + n];
  }

  lemma ReceiveBytes(s: State, ch: Channel)
    requires s.down != []
    ensures Sent(Consume(s.(down := s.down[1..]), s.down[0]), ch) == Sent(s, ch)
  {
    var f, rest := s.down[0], FrameBytes(s.down[1..], ch);
    if f.Output? && f.channel == ch {
      assert s.Got(ch) + (Payload(f.data) + rest) == (s.Got(ch) + Payload(f.data)) + rest;
    } else {
      assert FrameBytes(s.down, ch) == rest;
    }
  }

  lemma WriteBytes(s: State, f: Response, ch: Channel)
    ensures Sent(Write(s, f), ch)
         == Sent(s, ch) + (if s.ClientClosed() then [] else FrameBytes([f], ch))
  {
    if s.ClientClosed() {
      assert Sent(s, ch) + [] == Sent(s, ch);
    } else {
      FrameBytesAppend(s.down, f, ch);
      Associative(s.Got(ch), FrameBytes(s.down, ch), FrameBytes([f], ch));
    }
  }

  lemma Associative(a: seq<Byte>, b: seq<Byte>, d: seq<Byte>)
    ensures a + (b + d) == (a + b) + d
  {}

  lemma StreamReadEffect(c: Config, s: State, step: Step, ch: Channel)
    requires Enabled(c, s, step) && step.StreamRead?
    ensures var t, x := Apply(c, s, step), s.Stream(ch);
      && Sent(t, ch) == Sent(s, ch) && t.ClientClosed() == s.ClientClosed() && t.DaemonClosed() == s.DaemonClosed()
      && t.Stream(ch) == if step.ch != ch then x else
           Streamer(if step.n > 0 then Emit(c.Remote(ch)[x.pos..x.pos + step.n], step.last) else Done, x.pos + step.n)
  {}

  lemma StreamReadDelivered(c: Config, s: State, step: Step, ch: Channel)
    requires Delivered(c, s, ch) && Enabled(c, s, step) && step.StreamRead?
    ensures Delivered(c, Apply(c, s, step), ch)
  {
    StreamReadEffect(c, s, step, ch);
    if step.ch == ch {
      TracksRead(s.Stream(ch), c.Remote(ch), Sent(s, ch),
                 !s.DaemonClosed() && !s.ClientClosed(), !s.DaemonClosed(), step.n, step.last);
    }
  }

  lemma OutputBytes(to: Channel, chunk: seq<Byte>, ch: Channel)
    ensures FrameBytes([Output(to, Encode(chunk))], ch) == if to == ch then chunk else []
  {
    RoundTrip(chunk);
    assert FrameBytes([], ch) == [];
  }

  lemma TracksWrite(x: Streamer, r: seq<Byte>, sent: seq<Byte>, closed: bool)
    requires x.pc.Emit? && Tracks(x, r, sent, !closed, true)
    ensures Tracks(x.(pc := if x.pc.last then Done else Fetch), r,
                   if closed then sent else sent + x.pc.chunk, !closed, true)
  {}

  lemma StreamWriteSent(c: Config, s: State, step: Step, ch: Channel)
    requires Enabled(c, s, step) && step.StreamWrite?
    ensures Sent(Apply(c, s, step), ch)
         == if step.ch == ch && !s.ClientClosed() then Sent(s, ch) + s.Stream(ch).pc.chunk else Sent(s, ch)
  {
    var x := s.Stream(step.ch);
    var t := s.SetStream(step.ch, x.(pc := if x.pc.last then Done else Fetch));
    WriteBytes(t, Output(step.ch, Encode(x.pc.chunk)), ch);
    OutputBytes(step.ch, x.pc.chunk, ch);
  }

  lemma StreamWriteDelivered(c: Config, s: State, step: Step, ch: Channel)
    requires Delivered(c, s, ch) && Enabled(c, s, step) && step.StreamWrite?
    requires !s.DaemonClosed()
    ensures Delivered(c, Apply(c, s, step), ch)
  {
    StreamWriteSent(c, s, step, ch);
    if step.ch == ch {
      TracksWrite(s.Stream(ch), c.Remote(ch), Sent(s, ch), s.ClientClosed());
    }
  }

  lemma ReplyDelivered(c: Config, s: State, step: Step, ch: Channel)
    requires Delivered(c, s, ch) && Enabled(c, s, step)
    requires step.WriteExit? || step.WriteError?
    ensures Delivered(c, Apply(c, s, step), ch)
  {
    if step.WriteExit? {
      ReplySent(c, s, Idle, Exit(c.exitCode), ch);
    } else {
      ReplySent(c, s, if s.handler.quit then Closed else Idle, Failed, ch);
    }
  }

  lemma ReplySent(c: Config, s: State, next: Handler, f: Response, ch: Channel)
    requires Delivered(c, s, ch) && !s.DaemonClosed() && !f.Output?
    ensures Delivered(c, Write(s.(handler := next), f), ch)
  {
    var u := s.(handler := next);
    ReplyBytes(u, f, ch);
    assert Sent(u, ch) == Sent(s, ch);
    assert Write(u, f).Stream(ch) == s.Stream(ch);
  }

  lemma ReplyBytes(s: State, f: Response, ch: Channel)
    requires !f.Output?
    ensures Sent(Write(s, f), ch) == Sent(s, ch)
  {
    WriteBytes(s, f, ch);
    assert FrameBytes([f], ch) == [];
  }

  lemma SilentEffect(c: Config, s: State, step: Step)
    requires Shaped(s) && Enabled(c, s, step)
    requires !step.Receive? && !step.StreamRead? && !step.StreamWrite? && !step.WriteExit? && !step.WriteError?
    ensures var t := Apply(c, s, step);
      && t.gotOut == s.gotOut && t.gotErr == s.gotErr && t.down == s.down
      && (s.DaemonClosed() ==> t.DaemonClosed()) && (s.ClientClosed() ==> t.ClientClosed())
      && (step.Launch? ==> s.out.pc.NoStream? && s.err.pc.NoStream?)
      && (if step.Launch? && step.ok then
            t.out == s.out.(pc := Fetch) && t.err == s.err.(pc := Fetch)
          else if step.Crash? then
            t.out == Halt(s.out) && t.err == Halt(s.err) && t.DaemonClosed()
          else t.out == s.out && t.err == s.err)
  {
    if OfClient(step) { ClientSilent(c, s, step); }
  }

  predicate OfClient(step: Step) {
    || step.SendExec? || step.ReceiveEof? || step.CloseClient? || step.Disconnect?
    || step.ReadStdin? || step.SendStdin? || step.SendEof?
  }

  lemma ClientSilent(c: Config, s: State, step: Step)
    requires Enabled(c, s, step) && OfClient(step)
    ensures var t := Apply(c, s, step);
      t == s.(client := t.client, feeder := t.feeder, inPos := t.inPos, up := t.up, faulted := t.faulted)
      && (s.ClientClosed() ==> t.ClientClosed())
  {}

  /** Steps that neither read nor write output frames. */
  lemma SilentDelivered(c: Config, s: State, step: Step, ch: Channel)
    requires Shaped(s) && Delivered(c, s, ch) && Enabled(c, s, step)
    requires !step.Receive? && !step.StreamRead? && !step.StreamWrite? && !step.WriteExit? && !step.WriteError?
    ensures Delivered(c, Apply(c, s, step), ch)
  {
    SilentEffect(c, s, step);
    var t := Apply(c, s, step);
    assert t.Got(ch) == s.Got(ch);
    assert t.Stream(ch) == s.Stream(ch) || t.Stream(ch) == s.Stream(ch).(pc := Fetch)
        || t.Stream(ch) == Halt(s.Stream(ch));
  }

  lemma DeliveredStep(c: Config, s: State, step: Step, ch: Channel)
    requires Shaped(s) && Delivered(c, s, ch) && Enabled(c, s, step)
    ensures Delivered(c, Apply(c, s, step), ch)
  {
    if step.Receive? {
      ReceiveBytes(s, ch);
    } else if step.StreamRead? {
      StreamReadDelivered(c, s, step, ch);
    } else if step.StreamWrite? {
      StreamWriteDelivered(c, s, step, ch);
    } else if step.WriteExit? || step.WriteError? {
      ReplyDelivered(c, s, step, ch);
    } else {
      SilentDelivered(c, s, step, ch);
    }
  }

  // ---- the exit frame ----

  predicate Exhausted(c: Config, x: Streamer, ch: Channel) {
    x.pc.Done? && x.pos == |c.Remote(ch)|
  }

  predicate Complete(c: Config, s: State) {
    && s.launches == 1 && (s.handler.Idle? || s.handler.Closed?) && s.pump.Stopped?
    && Exhausted(c, s.out, Out) && Exhausted(c, s.err, Err)
  }

  predicate ExitLast(frames: seq<Response>) {
    frames != [] && frames[|frames| - 1].Exit?
  }

  function Outcome(s: State): Result {
    if s.Cancelled() then s.client.result else Broken
  }

  /** An exit frame is the last frame and comes after every byte of output. */
  predicate Finished(c: Config, s: State) {
    && (forall i | 0 <= i < |s.down| - 1 :: !s.down[i].Exit?)
    && (ExitLast(s.down) ==>
          && s.down[|s.down| - 1].code == c.exitCode && Complete(c, s)
          && Sent(s, Out) == c.remoteOut && Sent(s, Err) == c.remoteErr)
    && (Outcome(s).ExitCode? ==>
          && Outcome(s).code == c.exitCode && Complete(c, s)
          && s.gotOut == c.remoteOut && s.gotErr == c.remoteErr)
  }

  lemma CompleteStep(c: Config, s: State, step: Step)
    requires Shaped(s) && Complete(c, s) && Enabled(c, s, step)
    ensures Complete(c, Apply(c, s, step))
    ensures !step.StreamRead? && !step.StreamWrite? && !step.WriteExit? && !step.WriteError?
  {}

  lemma FinishedReceive(c: Config, s: State)
    requires Shaped(s) && Finished(c, s) && s.client.Receiving? && s.down != []
    ensures Finished(c, Apply(c, s, Receive))
  {
    var t := Apply(c, s, Receive);
    ReceiveBytes(s, Out);
    ReceiveBytes(s, Err);
    if s.down[0].Exit? {
      ExitReceived(c, s, t);
    } else {
      OtherReceived(c, s, t);
    }
  }

  lemma ExitReceived(c: Config, s: State, t: State)
    requires Finished(c, s) && s.down != [] && s.down[0].Exit?
    requires t == s.(down := s.down[1..], client := Finishing(ExitCode(s.down[0].code)))
    ensures Finished(c, t)
  {
    assert s.down == [s.down[0]] && t.down == [];
    assert FrameBytes(s.down, Out) == FrameBytes(s.down, Err) == [];
  }

  lemma OtherReceived(c: Config, s: State, t: State)
    requires Finished(c, s) && s.down != [] && t.down == s.down[1..]
    requires Sent(t, Out) == Sent(s, Out) && Sent(t, Err) == Sent(s, Err)
    requires Complete(c, s) ==> Complete(c, t)
    requires !Outcome(t).ExitCode?
    ensures Finished(c, t)
  {
    assert forall i | 0 <= i < |t.down| :: t.down[i] == s.down[i + 1];
    assert t.down != [] ==> t.down[|t.down| - 1] == s.down[|s.down| - 1];
  }

  lemma FinishedWriteExit(c: Config, s: State)
    requires Shaped(s) && Delivered(c, s, Out) && Delivered(c, s, Err) && Finished(c, s)
    requires Enabled(c, s, WriteExit)
    ensures Finished(c, Apply(c, s, WriteExit))
  {
    var t := Apply(c, s, WriteExit);
    ReadyToExit(c, s);
    if !s.ClientClosed() {
      ExitWritten(c, s, t, Exit(c.exitCode));
    }
  }

  lemma ReadyToExit(c: Config, s: State)
    requires Shaped(s) && Delivered(c, s, Out) && Delivered(c, s, Err) && s.handler.Exiting?
    ensures !Complete(c, s) && Complete(c, s.(handler := Idle))
    ensures !s.ClientClosed() ==> Sent(s, Out) == c.remoteOut && Sent(s, Err) == c.remoteErr
  {
    assert Held(s.out) == Held(s.err) == [];
  }

  lemma ExitWritten(c: Config, s: State, t: State, f: Response)
    requires Finished(c, s) && !Complete(c, s) && f == Exit(c.exitCode)
    requires Sent(s, Out) == c.remoteOut && Sent(s, Err) == c.remoteErr
    requires t == s.(handler := Idle, down := s.down + [f]) && Complete(c, t)
    ensures Finished(c, t)
  {
    FrameBytesAppend(s.down, f, Out);
    FrameBytesAppend(s.down, f, Err);
    assert FrameBytes([f], Out) == FrameBytes([f], Err) == [];
    assert !ExitLast(s.down);
  }

  lemma StreamEffect(c: Config, s: State, step: Step)
    requires Shaped(s) && Enabled(c, s, step) && (step.StreamRead? || step.StreamWrite?)
    ensures var t := Apply(c, s, step);
      && t.client == s.client && t.gotOut == s.gotOut && t.gotErr == s.gotErr
      && (t.down == s.down || exists data :: t.down == s.down + [Output(step.ch, data)])
  {}

  /** No other step writes or takes an exit frame, or writes after one. */
  lemma ExitUntouched(c: Config, s: State, step: Step)
    requires Shaped(s) && Enabled(c, s, step) && !step.Receive? && !step.WriteExit? && !step.Disconnect?
    ensures var t := Apply(c, s, step);
      && Outcome(t) == Outcome(s) && t.gotOut == s.gotOut && t.gotErr == s.gotErr
      && (t.down == s.down
          || (!Complete(c, s) && !ExitLast(t.down) && t.down != [] && t.down[..|t.down| - 1] == s.down))
  {
    var t := Apply(c, s, step);
    if step.StreamRead? || step.StreamWrite? {
      StreamEffect(c, s, step);
      NotComplete(c, s, step);
      if t.down != s.down {
        var data :| t.down == s.down + [Output(step.ch, data)];
        Longer(s.down, Output(step.ch, data));
      }
    } else if step == WriteError {
      Longer(s.down, Failed);
      assert t.client == s.client;
    } else {
      SilentEffect(c, s, step);
      SilentOutcome(c, s, step);
    }
  }

  lemma SilentOutcome(c: Config, s: State, step: Step)
    requires Enabled(c, s, step)
    requires !step.Receive? && !step.Disconnect? && !step.StreamRead? && !step.StreamWrite?
    ensures Outcome(Apply(c, s, step)) == Outcome(s)
  {}

  lemma NotComplete(c: Config, s: State, step: Step)
    requires Enabled(c, s, step) && (step.StreamRead? || step.StreamWrite?)
    ensures !Complete(c, s)
  {}

  lemma Longer(frames: seq<Response>, f: Response)
    ensures var more := frames + [f]; more[..|more| - 1] == frames && more[|more| - 1] == f
  {}

  lemma FinishedKept(c: Config, s: State, t: State)
    requires Finished(c, s) && (Complete(c, s) ==> Complete(c, t))
    requires Outcome(t) == Outcome(s) && t.gotOut == s.gotOut && t.gotErr == s.gotErr
    requires t.down == s.down
          || (!Complete(c, s) && !ExitLast(t.down) && t.down != [] && t.down[..|t.down| - 1] == s.down)
    ensures Finished(c, t)
  {
    if t.down != s.down {
      forall i | 0 <= i < |t.down| - 1
        ensures !t.down[i].Exit?
      {
        assert t.down[i] == s.down[i];
      }
    }
  }

  /** A client that dies has no outcome, and what is in flight stays as it was. */
  lemma FinishedDisconnect(c: Config, s: State)
    requires Finished(c, s) && Enabled(c, s, Disconnect)
    ensures Finished(c, Apply(c, s, Disconnect))
  {
    var t := Apply(c, s, Disconnect);
    assert Sent(t, Out) == Sent(s, Out) && Sent(t, Err) == Sent(s, Err);
  }

  lemma FinishedStep(c: Config, s: State, step: Step)
    requires Shaped(s) && Delivered(c, s, Out) && Delivered(c, s, Err)
    requires Finished(c, s) && Enabled(c, s, step)
    ensures Finished(c, Apply(c, s, step))
  {
    if step.Receive? {
      FinishedReceive(c, s);
    } else if step.WriteExit? {
      FinishedWriteExit(c, s);
    } else if step.Disconnect? {
      FinishedDisconnect(c, s);
    } else {
      ExitUntouched(c, s, step);
      if Complete(c, s) {
        CompleteStep(c, s, step);
      }
      FinishedKept(c, s, Apply(c, s, step));
    }
  }
}
