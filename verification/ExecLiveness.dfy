/** The exec exchange as a whole: every run is finite, which states are stuck,
    and what has been delivered when the client returns. */
module ExecLiveness {
  import opened Base64
  import opened ExecProtocol
  import opened ExecSafety
  import opened ExecStdin

  predicate ReplyLast(frames: seq<Response>) {
    frames != [] && !frames[|frames| - 1].Output?
  }

  /** While the client waits, a handler that is done has left it a final frame. */
  predicate Answered(s: State) {
    s.client.Receiving? && s.handler.Idle? && !Fresh(s) ==> ReplyLast(s.down)
  }

  /** What holds as long as nothing was refused, disconnected or crashed. */
  predicate Quiet(c: Config, s: State) {
    !s.faulted ==>
      && (s.DaemonClosed() ==> s.ClientClosed())
      && (forall f | f in s.down :: !f.Failed?)
      && (s.Cancelled() ==> Outcome(s).ExitCode?)
      && (!s.stdinFailed && ((s.client.Receiving? && ExitLast(s.down)) || s.Cancelled()) ==>
            c.localEnds && s.remoteIn == c.localIn)
  }

  predicate Inv(c: Config, s: State) {
    && Shaped(s) && Delivered(c, s, Out) && Delivered(c, s, Err)
    && Finished(c, s) && Fed(c, s) && Answered(s) && Quiet(c, s)
  }

  lemma AnsweredReceive(c: Config, s: State)
    requires Shaped(s) && Answered(s) && Enabled(c, s, Receive)
    ensures Answered(Apply(c, s, Receive))
  {
    var t := Apply(c, s, Receive);
    assert t.client.Receiving? && t.down != [] ==> ReplyLast(t.down) == ReplyLast(s.down);
  }

  lemma AnsweredDaemon(c: Config, s: State, step: Step)
    requires Shaped(s) && Answered(s) && Enabled(c, s, step) && !OfClient(step) && !step.Receive?
    requires !step.StreamRead? && !step.StreamWrite?
    ensures Answered(Apply(c, s, step))
  {
    var t := Apply(c, s, step);
    if step.PumpDecode? {
      assert !t.handler.Idle?;
    } else if !step.WriteExit? && !step.WriteError? {
      assert t.down == s.down;
    }
  }

  lemma AnsweredStep(c: Config, s: State, step: Step)
    requires Shaped(s) && Answered(s) && Enabled(c, s, step)
    ensures Answered(Apply(c, s, step))
  {
    if step.Receive? {
      AnsweredReceive(c, s);
    } else if OfClient(step) {
      ClientSilent(c, s, step);
    } else if step.StreamRead? || step.StreamWrite? {
      StreamAloof(c, s, step);
    } else {
      AnsweredDaemon(c, s, step);
    }
  }

  lemma QuietReceive(c: Config, s: State)
    requires Shaped(s) && Finished(c, s) && Quiet(c, s) && Enabled(c, s, Receive)
    ensures Quiet(c, Apply(c, s, Receive))
  {
    var t := Apply(c, s, Receive);
    assert s.down[0] in s.down;
    assert t.down != [] ==> s.down[|s.down| - 1] == t.down[|t.down| - 1];
  }

  lemma QuietReply(c: Config, s: State, step: Step)
    requires Shaped(s) && Fed(c, s) && Quiet(c, s) && Enabled(c, s, step)
    requires step.WriteExit? || step.WriteError?
    ensures Quiet(c, Apply(c, s, step))
  {
    if step.WriteExit? {
      assert s.pump.Stopped?;
    } else {
      assert s.faulted;
    }
  }

  lemma QuietStep(c: Config, s: State, step: Step)
    requires Shaped(s) && Finished(c, s) && Fed(c, s) && Quiet(c, s) && Enabled(c, s, step)
    ensures Quiet(c, Apply(c, s, step))
  {
    if step.Receive? {
      QuietReceive(c, s);
    } else if step.WriteExit? || step.WriteError? {
      QuietReply(c, s, step);
    } else {
      QuietOther(c, s, step);
    }
  }

  lemma QuietOther(c: Config, s: State, step: Step)
    requires Shaped(s) && Finished(c, s) && Quiet(c, s) && Enabled(c, s, step)
    requires !step.Receive? && !step.WriteExit? && !step.WriteError?
    ensures Quiet(c, Apply(c, s, step))
  {
    if OfClient(step) {
      QuietClient(c, s, step);
    } else if step.StreamRead? || step.StreamWrite? {
      QuietStream(c, s, step);
    } else {
      QuietDaemon(c, s, step);
    }
  }

  lemma QuietClient(c: Config, s: State, step: Step)
    requires Shaped(s) && Quiet(c, s) && Enabled(c, s, step) && OfClient(step)
    ensures Quiet(c, Apply(c, s, step))
  {
    ClientSilent(c, s, step);
  }

  lemma QuietStream(c: Config, s: State, step: Step)
    requires Shaped(s) && Quiet(c, s) && Enabled(c, s, step) && (step.StreamRead? || step.StreamWrite?)
    ensures Quiet(c, Apply(c, s, step))
  {
    StreamEffect(c, s, step);
    StreamAloof(c, s, step);
  }

  lemma QuietDaemon(c: Config, s: State, step: Step)
    requires Shaped(s) && Finished(c, s) && Quiet(c, s) && Enabled(c, s, step)
    requires !step.Receive? && !step.WriteExit? && !step.WriteError? && !step.StreamRead? && !step.StreamWrite?
    requires !OfClient(step)
    ensures Quiet(c, Apply(c, s, step))
  {
    var t := Apply(c, s, step);
    SilentEffect(c, s, step);
    assert t.client == s.client;
    assert step.PumpWrite? ==> !Complete(c, s);
  }

  lemma InvStep(c: Config, s: State, step: Step)
    requires Inv(c, s) && Enabled(c, s, step)
    ensures Inv(c, Apply(c, s, step))
  {
    ShapedStep(c, s, step);
    DeliveredStep(c, s, step, Out);
    DeliveredStep(c, s, step, Err);
    FinishedStep(c, s, step);
    FedStep(c, s, step);
    AnsweredStep(c, s, step);
    QuietStep(c, s, step);
  }

  lemma {:induction false} InvRun(c: Config, s: State, run: seq<Step>)
    requires Inv(c, s) && Legal(c, s, run)
    ensures Inv(c, After(c, s, run))
    decreases |run|
  {
    if run != [] {
      InvStep(c, s, run[0]);
      InvRun(c, Apply(c, s, run[0]), run[1..]);
    }
  }

  lemma InvInit(c: Config)
    ensures Inv(c, Init())
  {
    assert Sent(Init(), Out) == Sent(Init(), Err) == [];
    assert Passed(Init()) == [];
    assert Shaped(Init()) && Finished(c, Init());
  }

  // ---- safety over every run ----

  /** The client's stdout and stderr never get ahead of, or differ from, what the
      remote produced; once it has an exit code they are everything. */
  lemma OutputFaithful(c: Config, run: seq<Step>)
    requires Legal(c, Init(), run)
    ensures var s := After(c, Init(), run);
      && s.gotOut <= c.remoteOut && s.gotErr <= c.remoteErr
      && (Outcome(s).ExitCode? ==>
            Outcome(s).code == c.exitCode && s.gotOut == c.remoteOut && s.gotErr == c.remoteErr)
  {
    InvInit(c);
    InvRun(c, Init(), run);
    var s := After(c, Init(), run);
    assert s.gotOut <= Sent(s, Out) <= c.remoteOut[..s.out.pos] <= c.remoteOut;
    assert s.gotErr <= Sent(s, Err) <= c.remoteErr[..s.err.pos] <= c.remoteErr;
  }

  /** Remote stdin is always a prefix of local stdin; the decoder never has two
      readers; and one connection starts one command and nothing else, however
      many frames a refused exec leaves behind. */
  lemma StdinFaithful(c: Config, run: seq<Step>)
    requires Legal(c, Init(), run)
    ensures var s := After(c, Init(), run);
      && s.remoteIn <= c.localIn
      && !(s.handler.Idle? && s.PumpLive())
      && s.launches <= 1 && s.controls == 0
  {
    InvInit(c);
    InvRun(c, Init(), run);
    var s := After(c, Init(), run);
    assert s.remoteIn <= c.localIn[..s.inPos] <= c.localIn;
  }

  // ---- termination ----

  function RequestWeight(frames: seq<Request>): nat {
    if frames == [] then 0 else (if frames[0].Exec? then 20 else 2) + RequestWeight(frames[1..])
  }

  lemma {:induction false} RequestWeightAppend(frames: seq<Request>, f: Request)
    ensures RequestWeight(frames + [f]) == RequestWeight(frames) + if f.Exec? then 20 else 2
  {
    if frames == [] {
      assert frames + [f] == [f];
      assert RequestWeight([f]) == (if f.Exec? then 20 else 2) + RequestWeight([]);
    } else {
      RequestWeightAppend(frames[1..], f);
      assert (frames + [f])[1..] == frames[1..] + [f];
    }
  }

  function ClientWeight(x: Client): nat {
    match x case Starting => 30 case Receiving => 5 case Finishing(_) => 3 case Returned(_) => 0
  }

  function FeederWeight(x: Feeder): nat {
    match x case Unborn => 7 case Reading => 6 case Sending(_, _) => 10 case Ending => 3 case Gone => 0
  }

  function HandlerWeight(x: Handler): nat {
    match x
    case Vetting => 15 case Launching => 12 case Streaming => 8 case AwaitingStdin => 6
    case Exiting => 5 case Refusing(_) => 5 case Idle => 1 case Closed => 0
  }

  function PumpWeight(x: Pump): nat {
    match x case Decoding => 1 case Writing(_) => 2 case _ => 0
  }

  function StreamWeight(x: Streamer, r: seq<Byte>): int {
    6 * (|r| - x.pos) + match x.pc case NoStream => 3 case Fetch => 2 case Emit(_, _) => 5 case Done => 0
  }

  /** Work left: bytes not read yet, frames in flight, and control points. */
  function Measure(c: Config, s: State): int {
    ClientWeight(s.client) + FeederWeight(s.feeder) + HandlerWeight(s.handler) + PumpWeight(s.pump)
    + StreamWeight(s.out, c.remoteOut) + StreamWeight(s.err, c.remoteErr)
    + 6 * (|c.localIn| - s.inPos) + RequestWeight(s.up) + 2 * |s.down|
  }

  lemma MeasurePositive(c: Config, s: State)
    requires Inv(c, s)
    ensures Measure(c, s) >= 0
  {}

  lemma MeasureClient(c: Config, s: State, step: Step)
    requires Shaped(s) && Enabled(c, s, step)
    requires step.SendExec? || step.Receive? || step.ReceiveEof? || step.CloseClient? || step.Disconnect?
    ensures Measure(c, Apply(c, s, step)) < Measure(c, s)
  {
    if step.SendExec? {
      MeasureSendExec(c, s);
    } else {
      assert Apply(c, s, step).up == s.up;
    }
  }

  lemma MeasureSendExec(c: Config, s: State)
    requires s.client.Starting? && s.feeder.Unborn? && Enabled(c, s, SendExec)
    ensures Measure(c, Apply(c, s, SendExec)) < Measure(c, s)
  {
    RequestWeightAppend(s.up, Exec);
  }

  lemma MeasureFeeder(c: Config, s: State, step: Step)
    requires Shaped(s) && Enabled(c, s, step)
    requires step.ReadStdin? || step.SendStdin? || step.SendEof?
    ensures Measure(c, Apply(c, s, step)) < Measure(c, s)
  {
    ClientSilent(c, s, step);
    if step.SendStdin? {
      RequestWeightAppend(s.up, Stdin(Encode(s.feeder.chunk)));
    } else if step.SendEof? {
      RequestWeightAppend(s.up, StdinEof);
    }
  }

  lemma MeasureStream(c: Config, s: State, step: Step)
    requires Shaped(s) && Enabled(c, s, step) && (step.StreamRead? || step.StreamWrite?)
    ensures Measure(c, Apply(c, s, step)) < Measure(c, s)
  {
    StreamAloof(c, s, step);
    if step.StreamRead? {
      ReadWeight(s.Stream(step.ch), c.Remote(step.ch), step.n, step.last);
    }
    assert step.ch == Out ==> Apply(c, s, step).err == s.err;
    assert step.ch == Err ==> Apply(c, s, step).out == s.out;
  }

  lemma ReadWeight(x: Streamer, r: seq<Byte>, n: nat, last: bool)
    requires x.pc.Fetch? && x.pos + n <= |r|
    ensures var chunk := r[x.pos..x.pos + n];
      StreamWeight(Streamer(if n > 0 then Emit(chunk, last) else Done, x.pos + n), r) < StreamWeight(x, r)
  {}

  lemma MeasureDaemon(c: Config, s: State, step: Step)
    requires Shaped(s) && Enabled(c, s, step)
    requires step.HangUp? || step.Vet? || step.Launch? || step.Join? || step.StdinDone?
          || step.WriteExit? || step.WriteError? || step.Crash?
    ensures Measure(c, Apply(c, s, step)) < Measure(c, s)
  {}

  lemma MeasureDecoder(c: Config, s: State, step: Step)
    requires Shaped(s) && Enabled(c, s, step)
    requires step.Dispatch? || step.PumpDecode? || step.PumpEof? || step.PumpWrite?
    ensures Measure(c, Apply(c, s, step)) < Measure(c, s)
  {
    if step.Dispatch? || step.PumpDecode? {
      assert RequestWeight(s.up) == (if s.up[0].Exec? then 20 else 2) + RequestWeight(s.up[1..]);
    }
  }

  lemma MeasureStep(c: Config, s: State, step: Step)
    requires Inv(c, s) && Enabled(c, s, step)
    ensures Measure(c, Apply(c, s, step)) < Measure(c, s)
  {
    if step.SendExec? || step.Receive? || step.ReceiveEof? || step.CloseClient? || step.Disconnect? {
      MeasureClient(c, s, step);
    } else if step.ReadStdin? || step.SendStdin? || step.SendEof? {
      MeasureFeeder(c, s, step);
    } else if step.StreamRead? || step.StreamWrite? {
      MeasureStream(c, s, step);
    } else if step.Dispatch? || step.PumpDecode? || step.PumpEof? || step.PumpWrite? {
      MeasureDecoder(c, s, step);
    } else {
      MeasureDaemon(c, s, step);
    }
  }

  /** Every run is finite, and its length is bounded by the amount of data. */
  lemma {:induction false} RunsAreFinite(c: Config, s: State, run: seq<Step>)
    requires Inv(c, s) && Legal(c, s, run)
    ensures |run| <= Measure(c, s)
    decreases |run|
  {
    if run == [] {
      MeasurePositive(c, s);
    } else {
      InvStep(c, s, run[0]);
      MeasureStep(c, s, run[0]);
      RunsAreFinite(c, Apply(c, s, run[0]), run[1..]);
    }
  }
}
