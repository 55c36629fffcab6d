/**
 The exec exchange between `qssh --exec` and its daemon, as a step system.

 One client connection carries requests one way and responses the other. On the
 client side a reader loop and a stdin goroutine run side by side; on the daemon
 side the connection handler, a stdin pump that takes over the request decoder,
 and two output streamers that share one locked writer. Every action that
 another goroutine can observe is one step, and a run is any sequence of enabled
 steps. JSON framing is the identity here; frame payloads are real base64.
 */
module ExecProtocol {
  import opened Base64

  /** Read buffers on both sides hold 32 KiB. */
  const CHUNK: nat := 32 * 1024

  datatype Channel = Out | Err

  datatype Request =
    | Exec
    | Stdin(data: string)
    | StdinEof
    | Other            // mount, unmount, stop, ping or anything else

  datatype Response =
    | Output(channel: Channel, data: string)
    | Exit(code: int)
    | Failed

  /** What the environment supplies: the local stdin and whether it ever ends,
      the bytes the SSH channel delivers, and the frame capacity of the socket. */
  datatype Config = Config(
    localIn: seq<Byte>, localEnds: bool,
    remoteOut: seq<Byte>, remoteErr: seq<Byte>,
    exitCode: int, capacity: nat)
  {
    function Remote(ch: Channel): seq<Byte> {
      if ch == Out then remoteOut else remoteErr
    }
  }

  datatype Result = ExitCode(code: int) | Broken

  datatype Client =
    | Starting                    // exec request not sent yet
    | Receiving                   // in the response loop
    | Finishing(result: Result)   // stdin cancelled, connection not closed yet
    | Returned(result: Result)    // connection closed

  datatype Feeder =               // the client's stdin goroutine
    | Unborn
    | Reading
    | Sending(chunk: seq<Byte>, last: bool)
    | Ending                      // about to send stdin_eof
    | Gone

  datatype Handler =              // handleConn and handleExec
    | Idle                        // blocked in the request decoder
    | Vetting                     // exec received, profile being re-validated
    | Launching                   // session, pipes, start
    | Streaming                   // waiting for both streamers
    | AwaitingStdin               // waiting for the pump
    | Exiting                     // about to write the exit frame
    | Refusing(quit: bool)        // about to write an error frame
    | Closed

  datatype Pump = Off | Decoding | Writing(payload: seq<Byte>) | Stopped

  datatype StreamPc = NoStream | Fetch | Emit(chunk: seq<Byte>, last: bool) | Done

  /** A streamer: its control point and how much of the remote stream it has read. */
  datatype Streamer = Streamer(pc: StreamPc, pos: nat)

  datatype State = State(
    client: Client, feeder: Feeder, inPos: nat,
    gotOut: seq<Byte>, gotErr: seq<Byte>,       // what the client wrote to stdout, stderr
    up: seq<Request>, down: seq<Response>,      // frames in flight
    handler: Handler, pump: Pump, out: Streamer, err: Streamer,
    remoteIn: seq<Byte>,                        // what reached the remote stdin
    launches: nat,                              // remote commands started
    controls: nat,                              // other requests dispatched
    stdinFailed: bool,                          // a write to the remote stdin has failed
    faulted: bool)                              // some refusal, disconnect or crash happened
  {
    function Got(ch: Channel): seq<Byte> { if ch == Out then gotOut else gotErr }

    function Stream(ch: Channel): Streamer { if ch == Out then out else err }

    function SetStream(ch: Channel, x: Streamer): State {
      if ch == Out then this.(out := x) else this.(err := x)
    }

    predicate ClientClosed() { client.Returned? }

    predicate DaemonClosed() { handler.Closed? }

    /** finish() has moved the read deadline of the local stdin. */
    predicate Cancelled() { client.Finishing? || client.Returned? }

    predicate PumpLive() { pump.Decoding? || pump.Writing? }
  }

  datatype Step =
    | SendExec
    | Receive
    | ReceiveEof
    | CloseClient
    | ReadStdin(n: nat, last: bool)
    | SendStdin
    | SendEof
    | Dispatch
    | HangUp
    | Vet(ok: bool)
    | Launch(ok: bool)
    | Join
    | StdinDone
    | WriteExit
    | WriteError
    | PumpDecode
    | PumpEof
    | PumpWrite(n: nat, ok: bool)
    | StreamRead(ch: Channel, n: nat, last: bool)
    | StreamWrite(ch: Channel)
    | Disconnect       // the client process dies
    | Crash            // the daemon process dies

  function Init(): State {
    State(Starting, Unborn, 0, [], [], [], [], Idle, Off,
          Streamer(NoStream, 0), Streamer(NoStream, 0), [], 0, 0, false, false)
  }

  /** A base64 payload, or the raw text for peers that sent none. */
  function Payload(data: string): seq<Byte> {
    match Decode(data)
    case Bytes(bs) => bs
    case Corrupt => Raw(data)
  }

  function Raw(data: string): seq<Byte> {
    seq(|data|, i requires 0 <= i < |data| => data[i] as int % 256)
  }

  /** A locked frame write: it blocks while the socket is full and fails
      silently once the peer has closed. */
  predicate CanWrite(c: Config, s: State) {
    s.ClientClosed() || |s.down| < c.capacity
  }

  function Write(s: State, f: Response): State {
    if s.ClientClosed() then s else s.(down := s.down + [f])
  }

  predicate Enabled(c: Config, s: State, step: Step) {
    match step
    case SendExec => s.client.Starting? && (s.DaemonClosed() || |s.up| < c.capacity)
    case Receive => s.client.Receiving? && s.down != []
    case ReceiveEof => s.client.Receiving? && s.down == [] && s.DaemonClosed()
    case CloseClient => s.client.Finishing?
    case ReadStdin(n, last) =>
      && s.feeder.Reading?
      && n <= CHUNK && s.inPos + n <= |c.localIn|
      && (n > 0 || last)
      && (last ==> s.Cancelled() || (c.localEnds && s.inPos + n == |c.localIn|))
    case SendStdin =>
      s.feeder.Sending? && (s.ClientClosed() || s.DaemonClosed() || |s.up| < c.capacity)
    case SendEof =>
      s.feeder.Ending? && (s.ClientClosed() || s.DaemonClosed() || |s.up| < c.capacity)
    case Dispatch => s.handler.Idle? && s.up != []
    case HangUp => s.handler.Idle? && s.ClientClosed()
    case Vet(_) => s.handler.Vetting?
    case Launch(_) => s.handler.Launching?
    case Join => s.handler.Streaming? && s.out.pc.Done? && s.err.pc.Done?
    case StdinDone => s.handler.AwaitingStdin? && s.pump.Stopped?
    case WriteExit => s.handler.Exiting? && CanWrite(c, s)
    case WriteError => s.handler.Refusing? && CanWrite(c, s)
    case PumpDecode => s.pump.Decoding? && s.up != []
    case PumpEof => s.pump.Decoding? && s.ClientClosed()
    case PumpWrite(n, ok) =>
      s.pump.Writing? && n <= |s.pump.payload| && (ok ==> n == |s.pump.payload|)
    case StreamRead(ch, n, last) =>
      && s.Stream(ch).pc.Fetch?
      && n <= CHUNK && s.Stream(ch).pos + n <= |c.Remote(ch)|
      && (n > 0 || last)
      && (last ==> s.Stream(ch).pos + n == |c.Remote(ch)|)
    case StreamWrite(ch) => s.Stream(ch).pc.Emit? && CanWrite(c, s)
    case Disconnect => !s.ClientClosed()
    case Crash => !s.DaemonClosed()
  }

  /** The client consumes one response frame. */
  function Consume(s: State, f: Response): State {
    match f
    case Output(Out, data) => s.(gotOut := s.gotOut + Payload(data))
    case Output(Err, data) => s.(gotErr := s.gotErr + Payload(data))
    case Exit(code) => s.(client := Finishing(ExitCode(code)))
    case Failed => s.(client := Finishing(Broken))
  }

  function Halt(x: Streamer): Streamer {
    if x.pc.NoStream? then x else x.(pc := Done)
  }

  function Apply(c: Config, s: State, step: Step): State
    requires Enabled(c, s, step)
  {
    match step
    case SendExec =>
      if s.DaemonClosed() then s.(client := Returned(Broken), feeder := Gone)
      else s.(client := Receiving, feeder := Reading, up := s.up + [Exec])
    case Receive => Consume(s.(down := s.down[1..]), s.down[0])
    case ReceiveEof => s.(client := Finishing(Broken))
    case CloseClient => s.(client := Returned(s.client.result))
    case ReadStdin(n, last) =>
      var t := s.(inPos := s.inPos + n);
      if n > 0 then t.(feeder := Sending(c.localIn[s.inPos..s.inPos + n], last))
      else t.(feeder := Ending)
    case SendStdin =>
      if s.ClientClosed() || s.DaemonClosed() then s.(feeder := Gone)
      else s.(up := s.up + [Stdin(Encode(s.feeder.chunk))],
              feeder := if s.feeder.last then Ending else Reading)
    case SendEof =>
      if s.ClientClosed() || s.DaemonClosed() then s.(feeder := Gone)
      else s.(up := s.up + [StdinEof], feeder := Gone)
    case Dispatch =>
      var t := s.(up := s.up[1..]);
      (match s.up[0]
       case Exec => t.(handler := Vetting)
       case Stdin(_) => t
       case StdinEof => t
       case Other => t.(controls := s.controls + 1))
    case HangUp => s.(handler := Closed)
    case Vet(ok) =>
      if ok then s.(handler := Launching) else s.(handler := Refusing(true), faulted := true)
    case Launch(ok) =>
      if ok then
        s.(handler := Streaming, pump := Decoding, out := s.out.(pc := Fetch),
           err := s.err.(pc := Fetch), launches := s.launches + 1)
      else s.(handler := Refusing(false), faulted := true)
    case Join => s.(handler := AwaitingStdin)
    case StdinDone => s.(handler := Exiting)
    case WriteExit => Write(s.(handler := Idle), Exit(c.exitCode))
    case WriteError => Write(s.(handler := if s.handler.quit then Closed else Idle), Failed)
    case PumpDecode =>
      var t := s.(up := s.up[1..]);
      (match s.up[0]
       case Stdin(data) => if data == "" then t else t.(pump := Writing(Payload(data)))
       case _ => t.(pump := Stopped))
    case PumpEof => s.(pump := Stopped)
    case PumpWrite(n, ok) =>
      s.(remoteIn := s.remoteIn + s.pump.payload[..n],
         pump := if ok then Decoding else Stopped, stdinFailed := s.stdinFailed || !ok)
    case StreamRead(ch, n, last) =>
      var x := s.Stream(ch);
      var chunk := c.Remote(ch)[x.pos..x.pos + n];
      s.SetStream(ch, Streamer(if n > 0 then Emit(chunk, last) else Done, x.pos + n))
    case StreamWrite(ch) =>
      var x := s.Stream(ch);
      Write(s.SetStream(ch, x.(pc := if x.pc.last then Done else Fetch)),
            Output(ch, Encode(x.pc.chunk)))
    case Disconnect => s.(client := Returned(Broken), feeder := Gone, faulted := true)
    case Crash =>
      s.(handler := Closed, pump := if s.pump.Off? then Off else Stopped,
         out := Halt(s.out), err := Halt(s.err), faulted := true)
  }

  // ---- runs ----

  predicate Legal(c: Config, s: State, run: seq<Step>)
    decreases |run|
  {
    run == [] || (Enabled(c, s, run[0]) && Legal(c, Apply(c, s, run[0]), run[1..]))
  }

  function After(c: Config, s: State, run: seq<Step>): State
    requires Legal(c, s, run)
    decreases |run|
  {
    if run == [] then s else After(c, Apply(c, s, run[0]), run[1..])
  }
}
