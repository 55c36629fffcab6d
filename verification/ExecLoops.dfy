/** The loops of the exec exchange, each on its own: what one goroutine does from
    its start to its end, in terms of the same frames as the step system. */
module ExecLoops {
  import opened Optional
  import opened Base64
  import opened ExecProtocol
  import opened ExecSafety

  /** The daemon's end of the connection, behind the writer's mutex. */
  class ConnWriter {
    var sent: seq<Response>

    constructor ()
      ensures sent == []
    {
      sent := [];
    }

    method WriteJson(f: Response)
      modifies this
      ensures sent == old(sent) + [f]
    {
      sent := sent + [f];
    }
  }

  /** Reads a stream to its end, in chunks of any size, and sends every chunk. */
  method StreamOutput(w: ConnWriter, data: seq<Byte>, ch: Channel)
    modifies w
    ensures FrameBytes(w.sent, ch) == old(FrameBytes(w.sent, ch)) + data
    ensures forall other | other != ch :: FrameBytes(w.sent, other) == old(FrameBytes(w.sent, other))
    ensures old(w.sent) <= w.sent && forall i | |old(w.sent)| <= i < |w.sent| :: w.sent[i].Output?
  {
    var pos, ended := 0, false;
    ghost var was, other := w.sent, if ch == Out then Err else Out;
    while !ended
      invariant pos <= |data| && (ended ==> pos == |data|)
      invariant was <= w.sent && forall i | |was| <= i < |w.sent| :: w.sent[i].Output?
      invariant FrameBytes(w.sent, ch) == FrameBytes(was, ch) + data[..pos]
      invariant FrameBytes(w.sent, other) == FrameBytes(was, other)
      decreases |data| - pos, !ended
    {
      var n, last := Chunk(|data| - pos);
      if n > 0 {
        var chunk := data[pos..pos + n];
        OneFrame(w.sent, ch, chunk, ch);
        OneFrame(w.sent, ch, chunk, other);
        Joined(FrameBytes(was, ch), data, pos, n);
        w.WriteJson(Output(ch, Encode(chunk)));
        pos := pos + n;
      }
      ended := last;
    }
    assert data[..pos] == data;
  }

  /** One read: at least a byte, or the end, possibly both. */
  method Chunk(left: nat) returns (n: nat, last: bool)
    ensures n <= left && n <= CHUNK && (n > 0 || last) && (last ==> n == left)
  {
    n :| 0 <= n <= left && n <= CHUNK && (left > 0 ==> n > 0);
    var early: bool := *;
    last := n == left && (early || n == 0);
  }

  lemma OneFrame(sent: seq<Response>, ch: Channel, chunk: seq<Byte>, to: Channel)
    ensures FrameBytes(sent + [Output(ch, Encode(chunk))], to)
         == FrameBytes(sent, to) + if to == ch then chunk else []
  {
    FrameBytesAppend(sent, Output(ch, Encode(chunk)), to);
    OutputBytes(ch, chunk, to);
  }

  lemma Joined(before: seq<Byte>, data: seq<Byte>, pos: nat, n: nat)
    requires pos + n <= |data|
    ensures before + data[..pos] + data[pos..pos + n] == before + data[..pos + n]
  {}

  predicate OnlyOutput(frames: seq<Response>, n: nat)
    requires n <= |frames|
  {
    forall i | 0 <= i < n :: frames[i].Output?
  }

  /** The client's response loop on the frames that arrive before the connection
      ends: it stops at the first exit or error frame. */
  method ReceiveLoop(frames: seq<Response>) returns (out: seq<Byte>, err: seq<Byte>, result: Result, read: nat)
    ensures read <= |frames| && (read == 0 || OnlyOutput(frames, read - 1))
    ensures out == FrameBytes(frames[..read], Out) && err == FrameBytes(frames[..read], Err)
    ensures result.ExitCode? ==> read > 0 && frames[read - 1] == Exit(result.code)
    ensures result.Broken? ==> if read > 0 && !frames[read - 1].Output? then frames[read - 1].Failed? else read == |frames|
  {
    out, err, read := [], [], 0;
    while read < |frames|
      invariant Taken(frames, read, out, err) && OnlyOutput(frames, read)
    {
      var f := frames[read];
      TakeOne(frames, read, out, err);
      read := read + 1;
      if f.Exit? {
        return out, err, ExitCode(f.code), read;
      }
      if f.Failed? {
        return out, err, Broken, read;
      }
      var payload := Unpack(f.data);
      if f.channel == Out {
        out := out + payload;
      } else {
        err := err + payload;
      }
    }
    result := Broken;
  }

  ghost predicate Taken(frames: seq<Response>, read: nat, out: seq<Byte>, err: seq<Byte>) {
    read <= |frames| && out == FrameBytes(frames[..read], Out) && err == FrameBytes(frames[..read], Err)
  }

  lemma TakeOne(frames: seq<Response>, read: nat, out: seq<Byte>, err: seq<Byte>)
    requires Taken(frames, read, out, err) && read < |frames|
    ensures var f := frames[read];
      if !f.Output? then Taken(frames, read + 1, out, err)
      else if f.channel == Out then Taken(frames, read + 1, out + Payload(f.data), err)
      else Taken(frames, read + 1, out, err + Payload(f.data))
  {
    NextFrame(frames, read, Out);
    NextFrame(frames, read, Err);
  }

  method Unpack(data: string) returns (payload: seq<Byte>)
    ensures payload == Payload(data)
  {
    var decoded := Decode(data);
    if decoded.Bytes? {
      return decoded.bytes;
    }
    return Raw(data);
  }

  lemma NextFrame(frames: seq<Response>, read: nat, ch: Channel)
    requires read < |frames|
    ensures var f, before := frames[read], FrameBytes(frames[..read], ch);
      FrameBytes(frames[..read + 1], ch)
        == if f.Output? && f.channel == ch then before + Payload(f.data) else before
  {
    assert frames[..read + 1] == frames[..read] + [frames[read]];
    FrameBytesAppend(frames[..read], frames[read], ch);
    OneOf(frames[read], ch);
  }

  lemma OneOf(f: Response, ch: Channel)
    ensures FrameBytes([f], ch) == if f.Output? && f.channel == ch then Payload(f.data) else []
  {
    assert [f][1..] == [];
  }

  /** A peer that sends plain text instead of base64 is taken at its word. */
  lemma RawPayload(data: string)
    requires Decode(data).Corrupt?
    ensures Payload(data) == Raw(data) && |Raw(data)| == |data|
    ensures forall i | 0 <= i < |data| && data[i] as int < 256 :: Raw(data)[i] as int == data[i] as int
  {
    RawBytes(data);
  }

  lemma RawBytes(data: string)
    ensures |Raw(data)| == |data|
    ensures forall i | 0 <= i < |data| && data[i] as int < 256 :: Raw(data)[i] as int == data[i] as int
  {}

  /** The daemon's stdin pump: takes frames until the end of stdin, a control
      frame, or a failing write, of which a part may have gone through. */
  method PumpStdin(frames: seq<Request>, failAt: Option<nat>) returns (written: seq<Byte>, read: nat)
    ensures read <= |frames|
    ensures written <= StdinBytes(frames[..read])
    ensures failAt.None? ==> written == StdinBytes(frames[..read])
    ensures forall i | 0 <= i < read - 1 :: frames[i].Stdin?
    ensures failAt.None? ==> read == |frames| || (read > 0 && !frames[read - 1].Stdin?)
  {
    written, read := [], 0;
    while read < |frames|
      invariant read <= |frames| && forall i | 0 <= i < read :: frames[i].Stdin?
      invariant written == StdinBytes(frames[..read])
    {
      var f := frames[read];
      NextStdin(frames, read);
      read := read + 1;
      if !f.Stdin? {
        return;
      }
      if f.data == "" {
        continue;
      }
      var payload := Unpack(f.data);
      if failAt == Some(read) {
        var n :| 0 <= n <= |payload|;
        written := written + payload[..n];
        return;
      }
      written := written + payload;
    }
  }

  lemma NextStdin(frames: seq<Request>, read: nat)
    requires read < |frames|
    ensures var f, before := frames[read], StdinBytes(frames[..read]);
      StdinBytes(frames[..read + 1]) == if f.Stdin? && f.data != "" then before + Payload(f.data) else before
  {
    assert frames[..read + 1] == frames[..read] + [frames[read]];
    StdinBytesAppend(frames[..read], frames[read]);
    OneStdin(frames[read]);
  }

  lemma OneStdin(f: Request)
    ensures StdinBytes([f]) == if f.Stdin? then Payload(f.data) else []
    ensures f == Stdin("") ==> StdinBytes([f]) == []
  {
    assert [f][1..] == [];
    assert Decode("") == Bytes([]);
  }

  /** One schedule of the exchange, loop after loop: both streamers, the exit frame,
      the client. Whatever the chunks, the client ends with exactly the remote
      output and the exit code. */
  method Relay(remoteOut: seq<Byte>, remoteErr: seq<Byte>, code: int)
    returns (out: seq<Byte>, err: seq<Byte>, result: Result)
    ensures out == remoteOut && err == remoteErr && result == ExitCode(code)
  {
    var w := new ConnWriter();
    StreamOutput(w, remoteOut, Out);
    StreamOutput(w, remoteErr, Err);
    ghost var output := w.sent;
    w.WriteJson(Exit(code));
    var frames, read := w.sent, 0;
    out, err, result, read := ReceiveLoop(frames);
    UpToExit(output, code, read, result);
  }

  lemma UpToExit(output: seq<Response>, code: int, read: nat, result: Result)
    requires OnlyOutput(output, |output|) && read <= |output| + 1
    requires var frames := output + [Exit(code)];
      && (read == 0 || OnlyOutput(frames, read - 1))
      && (result.ExitCode? ==> read > 0 && frames[read - 1] == Exit(result.code))
      && (result.Broken? ==>
            if read > 0 && !frames[read - 1].Output? then frames[read - 1].Failed? else read == |frames|)
    ensures result == ExitCode(code) && read == |output| + 1
    ensures var frames := output + [Exit(code)];
      FrameBytes(frames[..read], Out) == FrameBytes(output, Out)
      && FrameBytes(frames[..read], Err) == FrameBytes(output, Err)
  {
    var frames := output + [Exit(code)];
    assert frames[|output|] == Exit(code) && forall i | 0 <= i < |output| :: frames[i] == output[i];
    assert read == |frames| && frames[..read] == frames;
    FrameBytesAppend(output, Exit(code), Out);
    FrameBytesAppend(output, Exit(code), Err);
    OneOf(Exit(code), Out);
    OneOf(Exit(code), Err);
  }
}
